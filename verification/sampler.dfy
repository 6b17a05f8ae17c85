/** Weighted sampling and the random walk of models/markov.py. The draw of
    `random.random()` is an explicit threshold `t`; the walk consumes one
    threshold per step from a finite list, so running out of thresholds is
    an outcome of its own. */
module Sampler {
  import opened Base
  import opened Assoc
  import opened SuffixCounts
  import opened Distribution
  import opened Markov

  /** The range of `random.random()`. */
  predicate IsThreshold(t: real)
  {
    0.0 <= t < 1.0
  }

  /** Tokens as they sit in the walk's list and window, where `None` may appear. */
  function Lift(xs: seq<string>): seq<Option<string>>
  {
    seq(|xs|, i requires 0 <= i < |xs| => Some(xs[i]))
  }

  /** No `None` among the tokens. */
  predicate AllPresent(xs: seq<Option<string>>)
  {
    forall i :: 0 <= i < |xs| ==> xs[i].Some?
  }

  /** The tokens of a list without `None`. */
  function Unwrap(xs: seq<Option<string>>): (r: seq<string>)
    requires AllPresent(xs)
    ensures Lift(r) == xs
  {
    seq(|xs|, i requires 0 <= i < |xs| && AllPresent(xs) => xs[i].value)
  }

  /** Unwrapping commutes with taking a suffix. */
  lemma UnwrapSuffix(xs: seq<Option<string>>, i: nat)
    requires AllPresent(xs) && i <= |xs|
    ensures AllPresent(xs[i..]) && Unwrap(xs)[i..] == Unwrap(xs[i..])
  {
    assert forall j :: 0 <= j < |xs| - i ==> xs[i..][j] == xs[i + j];
  }

  lemma LiftInjective(a: seq<string>, b: seq<string>)
    ensures Lift(a) == Lift(b) ==> a == b
  {
    if Lift(a) == Lift(b) {
      assert |a| == |Lift(a)|;
      forall i | 0 <= i < |a| ensures a[i] == b[i] {
        assert Lift(a)[i] == Lift(b)[i];
      }
    }
  }

  /** `random_suffix(*prefix)`: the first suffix, in insertion order, whose
      cumulative probability reaches the threshold; `None` for an unseen prefix. */
  function RandomSuffix(m: Model, prefix: seq<string>, t: real): (r: Result<Option<string>, Error>)
    requires Valid(m)
    ensures r.Err? <==> |prefix| != m.n - 1
    ensures r.Err? ==> r.error == PrefixLength(m.n - 1)
    ensures r.Ok? && r.value.Some? ==> r.value.value in Keys(GetSuffixes(m, prefix).value)
    ensures r.Ok? && GetSuffixes(m, prefix).value == [] ==> r.value.None?
    ensures r.Ok? && GetSuffixes(m, prefix).value != [] && IsThreshold(t) ==> r.value.Some?
  {
    match GetSuffixes(m, prefix)
    case Err(e) => Err(e)
    case Ok(d) =>
      SelectNonEmpty(d, t);
      Ok(Select(d, t))
  }

  /** `random_ngram(*prefix)`: the prefix followed by a sampled suffix (or `None`). */
  function RandomNGram(m: Model, prefix: seq<string>, t: real): (r: Result<seq<Option<string>>, Error>)
    requires Valid(m)
    ensures r.Err? <==> |prefix| != m.n - 1
    ensures r.Err? ==> r.error == PrefixLength(m.n - 1)
    ensures r.Ok? ==> |r.value| == m.n && r.value[..m.n - 1] == Lift(prefix)
    ensures r.Ok? ==> r.value[m.n - 1] == RandomSuffix(m, prefix, t).value
    ensures r.Ok? && r.value[m.n - 1].Some? ==>
              Get(GetNGrams(m, prefix).value, prefix + [r.value[m.n - 1].value]).Some?
    ensures r.Ok? && GetNGrams(m, prefix).value != [] && IsThreshold(t) ==> r.value[m.n - 1].Some?
  {
    match RandomSuffix(m, prefix, t)
    case Err(e) => Err(e)
    case Ok(None) => Ok(Lift(prefix) + [None])
    case Ok(Some(s)) =>
      GetBound(GetSuffixes(m, prefix).value, s);
      Ok(Lift(prefix) + [Some(s)])
  }

  /** The state of random_sequence: the sliding window `prefix_queue` and
      the output list `sequence`. */
  datatype Walker = Walker(window: seq<Option<string>>, out: seq<Option<string>>)

  /** The window is the last n-1 entries of the output, and only the last
      output entry can be `None`. */
  predicate Inv(n: int, w: Walker)
  {
    && n >= 2
    && |w.window| == n - 1
    && |w.out| >= n - 1
    && w.window == w.out[|w.out| - (n - 1)..]
    && forall i :: 0 <= i < |w.out| - 1 ==> w.out[i].Some?
  }

  /** `s` was recorded as a suffix of the joined window. */
  predicate Follows(g: Graph, window: seq<string>, s: string)
  {
    Join(window) in g && s in Keys(g[Join(window)])
  }

  datatype StepResult =
    | Crash                    // ''.join met a None: TypeError
    | Stop(tokens: seq<string>) // the terminal token '' was drawn
    | Continue(next: Walker)

  /** One iteration of random_sequence's loop, drawing with threshold `t`. */
  function Step(m: Model, w: Walker, t: real): (r: StepResult)
    requires Valid(m) && Inv(m.n, w)
    ensures r.Crash? <==> !AllPresent(w.window)
    ensures r.Continue? ==> && Inv(m.n, r.next)
                            && |r.next.out| == |w.out| + 1
                            && r.next.out[..|w.out|] == w.out
                            && r.next.out[|w.out|] != Some("")
    ensures r.Continue? && r.next.out[|w.out|].Some? ==>
              AllPresent(w.window) && Follows(m.graph, Unwrap(w.window), r.next.out[|w.out|].value)
    ensures r.Stop? ==> && AllPresent(w.out)
                        && r.tokens == Unwrap(w.out) + [""]
                        && AllPresent(w.window)
                        && Follows(m.graph, Unwrap(w.window), "")
  {
    if !AllPresent(w.window) then Crash
    else
      var key := Join(Unwrap(w.window));
      ViewOfGraph(m.graph, key);
      var suffix := Select(SuffixDistribution(m.graph, key), t);
      var out := w.out + [suffix];
      if suffix == Some("") then
        assert w.out[|w.out| - 1] == w.window[m.n - 2];
        Stop(Unwrap(w.out) + [""])
      else
        Continue(Walker(w.window[1..] + [suffix], out))
  }

  /** The result of random_sequence under a finite list of thresholds. */
  datatype WalkOutcome =
    | Terminated(tokens: seq<string>)          // returned the output list
    | Failed                                   // raised TypeError after a dead end
    | OutOfFuel(partial: seq<Option<string>>)  // the thresholds ran out first

  /** The loop of random_sequence from state `w`, one threshold per iteration. */
  function Walk(m: Model, w: Walker, ts: seq<real>): (r: WalkOutcome)
    requires Valid(m) && Inv(m.n, w)
    ensures r.OutOfFuel? ==> |r.partial| == |w.out| + |ts| && r.partial[..|w.out|] == w.out
    ensures r.Terminated? ==> |w.out| < |r.tokens| <= |w.out| + |ts| && Lift(r.tokens[..|w.out|]) == w.out
    decreases |ts|
  {
    if ts == [] then OutOfFuel(w.out)
    else match Step(m, w, ts[0])
      case Crash => Failed
      case Stop(x) => Terminated(x)
      case Continue(w') => Walk(m, w', ts[1..])
  }

  /** One iteration of the walk: a continuing step walks on with the remaining thresholds. */
  lemma WalkContinues(m: Model, w: Walker, t: real, ts: seq<real>, w': Walker)
    requires Valid(m) && Inv(m.n, w) && Step(m, w, t) == Continue(w')
    ensures Walk(m, w, [t] + ts) == Walk(m, w', ts)
  {
    assert ([t] + ts)[1..] == ts;
  }

  /** A step that crashes or stops ends the walk whatever thresholds remain. */
  lemma WalkEnds(m: Model, w: Walker, t: real, ts: seq<real>)
    requires Valid(m) && Inv(m.n, w) && !Step(m, w, t).Continue?
    ensures Step(m, w, t).Crash? ==> Walk(m, w, [t] + ts) == Failed
    ensures Step(m, w, t).Stop? ==> Walk(m, w, [t] + ts) == Terminated(Step(m, w, t).tokens)
  {
  }

  /** `x` ends with the terminal token, has no earlier terminal token from
      position `k` on, and every token from position `k` on is a recorded
      suffix of the `len` tokens before it. */
  predicate Generated(g: Graph, len: nat, k: nat, x: seq<string>)
  {
    && len <= k < |x|
    && x[|x| - 1] == ""
    && (forall i :: k <= i < |x| - 1 ==> x[i] != "")
    && (forall i :: k <= i < |x| ==> Follows(g, x[i - len..i], x[i]))
  }

  /** The output drawn by a stopping step is generated from the step's position. */
  lemma StopGenerated(m: Model, w: Walker, t: real)
    requires Valid(m) && Inv(m.n, w) && Step(m, w, t).Stop?
    ensures Generated(m.graph, m.n - 1, |w.out|, Step(m, w, t).tokens)
  {
    var x, k := Step(m, w, t).tokens, |w.out|;
    UnwrapSuffix(w.out, k - (m.n - 1));
    assert x[..k] == Unwrap(w.out);
    assert x[k - (m.n - 1)..k] == Unwrap(w.out)[k - (m.n - 1)..];
  }

  /** A continuing step adds one generated position in front of the rest of the run. */
  lemma ContinueGenerated(m: Model, w: Walker, t: real, x: seq<string>)
    requires Valid(m) && Inv(m.n, w) && Step(m, w, t).Continue?
    requires |x| > |w.out| && Lift(x[..|w.out| + 1]) == Step(m, w, t).next.out
    requires Generated(m.graph, m.n - 1, |w.out| + 1, x)
    ensures Generated(m.graph, m.n - 1, |w.out|, x)
  {
    var w', k, len := Step(m, w, t).next, |w.out|, m.n - 1;
    assert Lift(x[..k + 1])[k] == Some(x[k]) == w'.out[k];
    assert Lift(x[..k]) == w.out by {
      assert Lift(x[..k]) == Lift(x[..k + 1])[..k];
    }
    assert x[k - len..k] == Unwrap(w.window) by {
      LiftInjective(x[k - len..k], Unwrap(w.window));
      assert Lift(x[k - len..k]) == Lift(x[..k])[k - len..];
    }
    assert Follows(m.graph, x[k - len..k], x[k]);
  }

  /** A walk returns normally only with a run of recorded transitions
      that ends at the first drawn terminal token. */
  lemma {:induction false} WalkTerminated(m: Model, w: Walker, ts: seq<real>)
    requires Valid(m) && Inv(m.n, w)
    ensures Walk(m, w, ts).Terminated? ==> Generated(m.graph, m.n - 1, |w.out|, Walk(m, w, ts).tokens)
    decreases |ts|
  {
    if ts != [] {
      var step := Step(m, w, ts[0]);
      if step.Stop? {
        StopGenerated(m, w, ts[0]);
      } else if step.Continue? {
        var r := Walk(m, step.next, ts[1..]);
        assert Walk(m, w, ts) == r;
        if r.Terminated? {
          WalkTerminated(m, step.next, ts[1..]);
          ContinueTerminated(m, w, ts[0], ts[1..]);
        }
      }
    }
  }

  /** A continuing step followed by a generated normal return is generated from the step's position. */
  lemma ContinueTerminated(m: Model, w: Walker, t: real, ts: seq<real>)
    requires Valid(m) && Inv(m.n, w) && Step(m, w, t).Continue?
    requires var w' := Step(m, w, t).next;
      Walk(m, w', ts).Terminated? && Generated(m.graph, m.n - 1, |w'.out|, Walk(m, w', ts).tokens)
    ensures Generated(m.graph, m.n - 1, |w.out|, Walk(m, Step(m, w, t).next, ts).tokens)
  {
    ContinueGenerated(m, w, t, Walk(m, Step(m, w, t).next, ts).tokens);
  }

  /** `random_sequence(*prefix)`: walks from `prefix` until the terminal token '' is drawn. */
  function RandomSequence(m: Model, prefix: seq<string>, ts: seq<real>): (r: Result<WalkOutcome, Error>)
    requires Valid(m)
    ensures r.Err? <==> |prefix| != m.n - 1
    ensures r.Err? ==> r.error == BadPrefixLength(|prefix|)
    ensures r.Ok? && r.value.Terminated? ==> var x := r.value.tokens;
      && |prefix| < |x| <= |prefix| + |ts|
      && x[..|prefix|] == prefix
      && Generated(m.graph, |prefix|, |prefix|, x)
    ensures r.Ok? && r.value.OutOfFuel? ==>
      |r.value.partial| == |prefix| + |ts| && r.value.partial[..|prefix|] == Lift(prefix)
  {
    if |prefix| != m.n - 1 then Err(BadPrefixLength(|prefix|))
    else
      var start := Lift(prefix);
      var r := Walk(m, Walker(start, start), ts);
      WalkTerminated(m, Walker(start, start), ts);
      LiftInjective(if r.Terminated? && |r.tokens| >= |prefix| then r.tokens[..|prefix|] else prefix, prefix);
      Ok(r)
  }

  /** Each step of the walk draws exactly what random_suffix draws for the
      window, appends it to the output and slides it into the window,
      stopping only on the terminal token. */
  lemma StepDrawsRandomSuffix(m: Model, w: Walker, t: real)
    requires Valid(m) && Inv(m.n, w) && AllPresent(w.window)
    ensures var s := RandomSuffix(m, Unwrap(w.window), t).value;
      && (s == Some("") <==> Step(m, w, t).Stop?)
      && (s != Some("") ==> Step(m, w, t) == Continue(Walker(w.window[1..] + [s], w.out + [s])))
  {
  }

  /** At an unseen prefix the draw yields None, which joins the output and the window. */
  lemma StepAtUnseenPrefix(m: Model, w: Walker, t: real)
    requires Valid(m) && Inv(m.n, w) && AllPresent(w.window)
    requires Join(Unwrap(w.window)) !in m.graph
    ensures Step(m, w, t) == Continue(Walker(w.window[1..] + [None], w.out + [None]))
  {
  }

  /** random_sequence starts the walk with the prefix as both window and output. */
  lemma SequenceStart(m: Model, prefix: seq<string>, ts: seq<real>)
    requires Valid(m) && |prefix| == m.n - 1
    ensures Inv(m.n, Walker(Lift(prefix), Lift(prefix)))
    ensures RandomSequence(m, prefix, ts) == Ok(Walk(m, Walker(Lift(prefix), Lift(prefix)), ts))
  {
  }

  /** Started at an unseen prefix, the first step draws None. */
  lemma UnseenFirstStep(m: Model, prefix: seq<string>, t: real)
    requires Valid(m) && |prefix| == m.n - 1 && Join(prefix) !in m.graph
    ensures Step(m, Walker(Lift(prefix), Lift(prefix)), t)
            == Continue(Walker(Lift(prefix)[1..] + [None], Lift(prefix) + [None]))
  {
    LiftInjective(Unwrap(Lift(prefix)), prefix);
    StepAtUnseenPrefix(m, Walker(Lift(prefix), Lift(prefix)), t);
  }

  /** Once None sits in the window, the next iteration fails. */
  lemma WalkAfterNone(m: Model, w: Walker, t: real, ts: seq<real>)
    requires Valid(m) && Inv(m.n, w) && w.window[|w.window| - 1] == None
    ensures Walk(m, w, [t] + ts) == Failed
  {
    assert !AllPresent(w.window);
    WalkEnds(m, w, t, ts);
  }

  /** After the first step from an unseen prefix, `None` ends the window. */
  lemma UnseenNext(m: Model, prefix: seq<string>, t: real)
    requires Valid(m) && |prefix| == m.n - 1 && Join(prefix) !in m.graph
    ensures var start := Lift(prefix);
      var w' := Walker(start[1..] + [None], start + [None]);
      && Inv(m.n, Walker(start, start))
      && Step(m, Walker(start, start), t) == Continue(w')
      && Inv(m.n, w') && w'.window[|w'.window| - 1] == None
  {
    SequenceStart(m, prefix, []);
    UnseenFirstStep(m, prefix, t);
  }

  /** From an unseen prefix, a walk with two thresholds or more fails. */
  lemma UnseenWalkFails(m: Model, prefix: seq<string>, ts: seq<real>)
    requires Valid(m) && |prefix| == m.n - 1 && Join(prefix) !in m.graph
    requires |ts| >= 2
    ensures Walk(m, Walker(Lift(prefix), Lift(prefix)), ts) == Failed
  {
    var start := Lift(prefix);
    var w' := Walker(start[1..] + [None], start + [None]);
    var t0, rest := ts[0], ts[1..];
    assert ts == [t0] + rest;
    UnseenNext(m, prefix, t0);
    WalkContinues(m, Walker(start, start), t0, rest, w');
    assert rest == [rest[0]] + rest[1..];
    WalkAfterNone(m, w', rest[0], rest[1..]);
  }

  /** From an unseen prefix, a walk with one threshold ends holding the appended None. */
  lemma UnseenWalkStalls(m: Model, prefix: seq<string>, t: real)
    requires Valid(m) && |prefix| == m.n - 1 && Join(prefix) !in m.graph
    ensures Walk(m, Walker(Lift(prefix), Lift(prefix)), [t]) == OutOfFuel(Lift(prefix) + [None])
  {
    var start := Lift(prefix);
    assert [t] == [t] + [];
    UnseenFirstStep(m, prefix, t);
    WalkContinues(m, Walker(start, start), t, [], Walker(start[1..] + [None], start + [None]));
  }

  /** The walk does not end at an unseen prefix: the draw there yields None,
      which is appended, and the next iteration fails on joining it. */
  lemma UnseenPrefixFails(m: Model, prefix: seq<string>, ts: seq<real>)
    requires Valid(m) && |prefix| == m.n - 1 && Join(prefix) !in m.graph
    ensures |ts| >= 2 ==> RandomSequence(m, prefix, ts) == Ok(Failed)
    ensures |ts| == 1 ==> RandomSequence(m, prefix, ts) == Ok(OutOfFuel(Lift(prefix) + [None]))
  {
    SequenceStart(m, prefix, ts);
    if |ts| >= 2 {
      UnseenWalkFails(m, prefix, ts);
    } else if |ts| == 1 {
      assert ts == [ts[0]];
      UnseenWalkStalls(m, prefix, ts[0]);
    }
  }

  /** random_suffix returns the suffix at the first position, in insertion
      order, where the running sum of probabilities reaches the threshold. */
  lemma RandomSuffixFirstReaching(m: Model, prefix: seq<string>, t: real, i: nat)
    requires Valid(m) && |prefix| == m.n - 1
    requires var d := GetSuffixes(m, prefix).value;
      && i < |d| && Reaches(d, i, t, 0.0)
      && forall j :: 0 <= j < i ==> !Reaches(d, j, t, 0.0)
    ensures RandomSuffix(m, prefix, t) == Ok(Some(GetSuffixes(m, prefix).value[i].0))
  {
    SelectFirstReaching(GetSuffixes(m, prefix).value, t, 0.0, i);
  }

  /** random_suffix falls through to None exactly when the running sum never
      reaches the threshold. */
  lemma RandomSuffixNone(m: Model, prefix: seq<string>, t: real)
    requires Valid(m) && |prefix| == m.n - 1
    ensures var d := GetSuffixes(m, prefix).value;
      RandomSuffix(m, prefix, t) == Ok(None) <==> forall j :: 0 <= j < |d| ==> !Reaches(d, j, t, 0.0)
  {
    SelectNoneNeverReaches(GetSuffixes(m, prefix).value, t, 0.0);
  }

  /** With a threshold in [0, 1), a step draws None only at an unrecorded
      window (the converse of `StepAtUnseenPrefix`). */
  lemma StepNoneAtUnseen(m: Model, w: Walker, t: real)
    requires Valid(m) && Inv(m.n, w) && AllPresent(w.window) && IsThreshold(t)
    requires Step(m, w, t).Continue? && Step(m, w, t).next.out[|w.out|] == None
    ensures Join(Unwrap(w.window)) !in m.graph
  {
    var key := Join(Unwrap(w.window));
    ViewOfGraph(m.graph, key);
    SelectNonEmpty(SuffixDistribution(m.graph, key), t);
  }

  /** The walk's output ends with a window of present tokens that was never recorded as a prefix. */
  predicate StuckAt(g: Graph, len: nat, out: seq<Option<string>>)
  {
    && |out| >= len
    && AllPresent(out[|out| - len..])
    && Join(Unwrap(out[|out| - len..])) !in g
  }

  /** From a window of present tokens, the next window is again all present
      exactly when the step drew a suffix. */
  lemma StepKeepsPresent(m: Model, w: Walker, t: real)
    requires Valid(m) && Inv(m.n, w) && AllPresent(w.window) && Step(m, w, t).Continue?
    ensures AllPresent(Step(m, w, t).next.window) <==> Step(m, w, t).next.out[|w.out|].Some?
  {
    var w' := Step(m, w, t).next;
    assert w'.window[m.n - 2] == w'.out[|w.out|];
  }

  /** A walker whose present window was never recorded is stuck. */
  lemma StuckHere(m: Model, w: Walker)
    requires Valid(m) && Inv(m.n, w) && AllPresent(w.window) && Join(Unwrap(w.window)) !in m.graph
    ensures StuckAt(m.graph, m.n - 1, w.out)
  {
  }

  /** Walking a prefix of the thresholds after one continuing step. */
  lemma WalkPrefixShift(m: Model, w: Walker, ts: seq<real>, w': Walker, k: nat)
    requires Valid(m) && Inv(m.n, w) && ts != [] && Step(m, w, ts[0]) == Continue(w')
    requires k < |ts|
    ensures Walk(m, w, ts[..k + 1]) == Walk(m, w', ts[1..][..k])
  {
    assert ts[..k + 1] == [ts[0]] + ts[1..][..k];
    WalkContinues(m, w, ts[0], ts[1..][..k], w');
  }

  /** A walk from a window of present tokens fails only after reaching an
      unrecorded window: some prefix of the thresholds leaves the walk
      standing at one. */
  lemma {:induction false} WalkFailedAtDeadEnd(m: Model, w: Walker, ts: seq<real>)
    requires Valid(m) && Inv(m.n, w) && AllPresent(w.window)
    requires forall i :: 0 <= i < |ts| ==> IsThreshold(ts[i])
    requires Walk(m, w, ts) == Failed
    ensures exists k :: 0 <= k < |ts| && Walk(m, w, ts[..k]).OutOfFuel?
                        && StuckAt(m.graph, m.n - 1, Walk(m, w, ts[..k]).partial)
    decreases |ts|
  {
    var w' := Step(m, w, ts[0]).next;
    StepKeepsPresent(m, w, ts[0]);
    if AllPresent(w'.window) {
      WalkFailedAtDeadEnd(m, w', ts[1..]);
      var k :| 0 <= k < |ts[1..]| && Walk(m, w', ts[1..][..k]).OutOfFuel?
               && StuckAt(m.graph, m.n - 1, Walk(m, w', ts[1..][..k]).partial);
      WalkPrefixShift(m, w, ts, w', k);
    } else {
      StepNoneAtUnseen(m, w, ts[0]);
      StuckHere(m, w);
      assert ts[..0] == [];
    }
  }

  /** random_sequence fails only at a dead end: with thresholds in [0, 1),
      a failing run has a shorter run that stops at an unrecorded window. */
  lemma FailedAtDeadEnd(m: Model, prefix: seq<string>, ts: seq<real>)
    requires Valid(m)
    requires forall i :: 0 <= i < |ts| ==> IsThreshold(ts[i])
    requires RandomSequence(m, prefix, ts) == Ok(Failed)
    ensures exists k :: 0 <= k < |ts| && RandomSequence(m, prefix, ts[..k]).Ok?
                        && RandomSequence(m, prefix, ts[..k]).value.OutOfFuel?
                        && StuckAt(m.graph, m.n - 1, RandomSequence(m, prefix, ts[..k]).value.partial)
  {
    var start := Lift(prefix);
    SequenceStart(m, prefix, ts);
    WalkFailedAtDeadEnd(m, Walker(start, start), ts);
    var k :| 0 <= k < |ts| && Walk(m, Walker(start, start), ts[..k]).OutOfFuel?
             && StuckAt(m.graph, m.n - 1, Walk(m, Walker(start, start), ts[..k]).partial);
    SequenceStart(m, prefix, ts[..k]);
  }
}
