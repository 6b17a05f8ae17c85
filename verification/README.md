# Graph-based n-gram Markov model

This project models the `Markov` class of `models/markov.py` (TwitterGram).
An order-`n` model keeps a graph. The graph maps a prefix key to a dictionary
of suffix counts. The key is the first `n - 1` tokens of an n-gram
concatenated without separator. The suffix is the last token. Dictionaries
keep insertion order. The model covers:

- ingestion of n-grams (`add_ngram`);
- the probability view, keyed by suffix or by full n-gram (`get_suffixes`, `get_ngrams`);
- merging of two models (`update`);
- weighted sampling (`random_suffix`, `random_ngram`);
- the random walk (`random_sequence`). It ends when the terminal token `''` is drawn.

Layout:

- `base.dfy`: `Option` and `Result`.
- `assoc.dfy`: insertion-ordered dictionaries as association lists with distinct keys.
- `counts.dfy`: suffix-count dictionaries. Covers increment, merge, and the order of appended keys.
- `distribution.dfy`: normalised distributions and the cumulative-threshold selection.
- `markov.dfy`: the model, its invariant `Valid`, and the operations up to `update`.
- `sampler.dfy`: `random_suffix`, `random_ngram`, and the walk of `random_sequence`.
- `scenarios.dfy`: concrete small corpora worked through the model.

Each `ValueError` is a constructor of `Markov.Error`. The draw of
`random.random()` is an explicit threshold `t`. A walk takes a finite list of
thresholds, one per iteration. Its outcome is one of three:

- `Terminated(tokens)`: the list was returned.
- `Failed`: the `TypeError` raised when `''.join` meets `None`.
- `OutOfFuel(partial)`: the thresholds ran out first.

## Model

| member | source | states |
|---|---|---|
| Markov.New | models/markov.py:9-15 | Fails with `OrderTooSmall(n)` exactly when `n < 2`. Otherwise it returns a valid model of order `n` in which every count is zero. |
| Markov.AddNGram | models/markov.py:17-52 | Fails with `NGramLength(n)` exactly when the n-gram does not have `n` tokens. Otherwise it raises the count of (joined prefix, last token) by one and leaves every other count and every other prefix's dictionary unchanged. A new suffix goes at the end of its dictionary. The model stays valid. |
| Markov.Join | models/markov.py:37 | The key of a single token is that token. |
| Markov.JoinConcat | models/markov.py:37 | Joining two token lists one after the other gives the concatenation of their keys, so token boundaries leave no trace in the key. |
| Markov.PrefixCollision | models/markov.py:37-38 | Two n-grams whose first `n - 1` tokens concatenate to the same string and whose last tokens agree are recorded identically. The prefix key is lossy. |
| Markov.PrefixCollisionExample | models/markov.py:29-38 | ("a", "bc", s) and ("ab", "c", s) are recorded identically in an order-3 model. |
| Markov.GetSuffixes | models/markov.py:54-83 | Fails with `PrefixLength(n - 1)` exactly when the prefix has the wrong length. For an unseen key it is empty. Otherwise it has the recorded suffixes in insertion order, each with probability `count / total` in (0, 1], and the probabilities sum to exactly 1. |
| Markov.NormalizedView | models/markov.py:79-83 | A non-empty positive dictionary has a positive total, and its normalisation keeps keys and order, gives each key `count / total`, and has mass 1. |
| Markov.Extend | models/markov.py:90-92 | The n-gram entries are exactly `prefix + [s]` for the suffixes `s`, each with that suffix's probability, and distinct suffixes give distinct n-grams. |
| Markov.GetNGrams | models/markov.py:85-93 | Fails exactly when `get_suffixes` fails, with the same error. Otherwise its keys are exactly `prefix + [s]` for the suffixes `s`, each with that suffix's probability. |
| Markov.MergeAt | models/markov.py:102-110 | The merged dictionary of one prefix holds the sum of both counts. It is the own dictionary when the other model lacks the prefix. It is a copy of the other's dictionary when the own model lacks it. Otherwise it keeps the own key order, followed by the other's new keys in the other's order. |
| Markov.MergeGraphs | models/markov.py:102-110 | The merged graph has the union of both prefix sets. A prefix only in the own graph keeps its dictionary. A prefix only in the other graph gets a copy of the other's dictionary. A shared prefix keeps its own suffix order followed by the other's new suffixes in the other's order. |
| Markov.MergeGraphsCounts | models/markov.py:102-110 | Every count of the merged graph is the sum of the two graphs' counts. |
| Markov.Update | models/markov.py:95-110 | Fails with `OrderMismatch` exactly when the orders differ. Otherwise: the prefixes are the union and every count is the sum. Prefixes only in the model are untouched. Prefixes only in the other model are copied with their order. Shared prefixes keep their own order and append the other's new suffixes in the other's order. The model stays valid. |
| Markov.UpdateDetermined | models/markov.py:95-110 | Any valid model meeting the facts of `Update`'s contract is exactly `Update`'s result: the contract fixes contents and order. |
| Markov.UpdateTwice | models/markov.py:102-110 | Merging the same model twice adds its counts twice. |
| Markov.UpdateNotIdempotent | models/markov.py:109-110 | Merging a non-empty model a second time changes the result: counts are added, not unioned. |
| Markov.UpdateCountsCommute | models/markov.py:102-110 | Merging `a` into `b` or `b` into `a` gives the same counts (the order of suffixes may differ). |
| SuffixCounts.AddCount | models/markov.py:43-52 | Adding `v` to one suffix raises that count and the total by `v`, leaves every other count as it was, appends the suffix only if it is new, and keeps keys distinct and counts positive. |
| SuffixCounts.Increment | models/markov.py:43-52 | Recording a suffix raises its count by one and leaves every other count unchanged. A new suffix goes at the end and an existing one keeps its place. A well-formed dictionary stays well formed. |
| SuffixCounts.MergeCounts | models/markov.py:106-110 | Every count of the merged dictionary is the sum of both dictionaries' counts. |
| SuffixCounts.MergeCountsOrder | models/markov.py:106-108 | The merged keys are the own keys in order, followed by the other's keys that were new, in the other's order. |
| SuffixCounts.MergeCountsShape | models/markov.py:106-110 | The merged dictionary has the union of keys and the sum of totals, and stays distinct and positive. |
| SuffixCounts.CountsExtensional | models/markov.py:43-52 | Two dictionaries with distinct keys, the same key order and the same counts are equal. |
| Distribution.Normalize | models/markov.py:79-83 | The distribution has one entry per suffix, in the same order, each with the suffix's count divided by the total. |
| Distribution.NormalizeKeys | models/markov.py:79-83 | Normalising keeps the keys and their order, and maps each key to `count / total`. |
| Distribution.NormalizeMass | models/markov.py:80-82 | The normalised probabilities sum to the counts' total divided by `total`. |
| Distribution.SelectFrom | models/markov.py:114-118 | The loop returns only a suffix of the distribution, and only from a non-empty one. `SelectFirstReaching` and `SelectNoneNeverReaches` fix which suffix it returns. |
| Distribution.SelectFirstReaching | models/markov.py:114-118 | If position `i` is the first where the running sum reaches the threshold, the selection is the suffix at `i`. |
| Distribution.SelectNoneNeverReaches | models/markov.py:114-118 | The selection falls through to `None` exactly when the running sum never reaches the threshold. |
| Distribution.SelectNonEmpty | models/markov.py:114-118 | A non-empty distribution selects a suffix for every threshold up to its mass. |
| Sampler.RandomSuffix | models/markov.py:112-118 | Fails exactly when the prefix has the wrong length. A drawn suffix is one of the prefix's recorded suffixes. An unseen prefix draws `None`. A seen prefix with a threshold in [0, 1) never draws `None`. |
| Sampler.RandomSuffixFirstReaching | models/markov.py:114-118 | The drawn suffix is the first one, in insertion order, whose cumulative probability reaches the threshold. |
| Sampler.RandomSuffixNone | models/markov.py:114-118 | `random_suffix` returns `None` exactly when no cumulative probability reaches the threshold. |
| Sampler.RandomNGram | models/markov.py:120-122 | Fails exactly when the prefix has the wrong length. Otherwise it returns the prefix followed by exactly what `random_suffix` draws for the same threshold. A drawn n-gram is a key of `get_ngrams`. A seen prefix with a threshold in [0, 1) never ends in `None`. |
| Sampler.Step | models/markov.py:135-140 | One iteration crashes exactly when the window holds `None`. A stop returns the output plus `''`. A continuing step appends exactly one non-`''` entry and keeps the window as the last `n - 1` entries. A drawn suffix was recorded after the window. |
| Sampler.StepDrawsRandomSuffix | models/markov.py:135-140 | Each iteration draws what `random_suffix` draws for the window. It stops exactly on `''`, and otherwise appends the draw and slides it into the window. |
| Sampler.Walk | models/markov.py:135-140 | A walk that runs out of thresholds has extended the output by one entry per threshold. A normal return is longer than the start and at most one entry per threshold longer. |
| Sampler.WalkTerminated | models/markov.py:135-140 | A normal return ends at the first drawn `''`, and each of its tokens after the start is a recorded suffix of the `n - 1` tokens before it. |
| Sampler.RandomSequence | models/markov.py:124-140 | Fails with `BadPrefixLength` exactly when the prefix has the wrong length. A normal return starts with the prefix, ends at the first drawn `''` and uses only recorded transitions. A walk cut short starts with the prefix and has one entry per threshold. |
| Sampler.StepAtUnseenPrefix | models/markov.py:76-77 | At a window whose key was never recorded, the iteration appends `None` and slides it into the window. |
| Sampler.StepNoneAtUnseen | models/markov.py:112-118 | With a threshold in [0, 1), an iteration from a window of present tokens appends `None` only when that window's key was never recorded. |
| Sampler.WalkAfterNone | models/markov.py:135-136 | Once `None` is in the window, the next iteration fails. |
| Sampler.UnseenPrefixFails | models/markov.py:124-140 | From an unseen prefix, two thresholds or more end in `Failed`, and one threshold leaves the output with `None` appended. The walk does not return at a prefix without suffixes. |
| Sampler.WalkFailedAtDeadEnd | models/markov.py:135-140 | With thresholds in [0, 1), a walk from present tokens fails only after reaching a window whose key was never recorded. |
| Sampler.FailedAtDeadEnd | models/markov.py:124-140 | With thresholds in [0, 1), `random_sequence` fails only when a shorter run of it stops at a window whose key was never recorded. |
| Scenarios.ConstructionBounds | models/markov.py:12-13 | `Markov(1)` is refused. `Markov(2)` and `Markov(5)` are accepted. |
| Scenarios.SingleBigram | models/markov.py:43-44 | One ("the", "cat") in an order-2 model gives "cat" probability 1 after "the". |
| Scenarios.AddTrigram | models/markov.py:37-52 | A trigram increments the dictionary of its first two tokens concatenated. |
| Scenarios.PetCorpus | models/markov.py:43-52 | ("the", "cat"), ("the", "dog"), ("the", "dog") build `{"the": {"cat": 1, "dog": 2}}`. Each of the three branches of `add_ngram` is taken once. |
| Scenarios.CatAndDog | models/markov.py:79-83 | That model gives "cat" 1/3 and "dog" 2/3, in insertion order. |
| Scenarios.TrigramCorpus | models/markov.py:37-52 | abc, abc, abd build `{"ab": {"c": 2, "d": 1}}`. |
| Scenarios.TrigramDistribution | models/markov.py:79-83 | After abc, abc, abd, the distribution after ("a", "b") is "c" with 2/3 and "d" with 1/3, in that order. |
| Scenarios.TrigramDraws | models/markov.py:112-118 | After ("a", "b"): thresholds up to 2/3 draw "c", up to 1 draw "d", and above 1 fall through to `None`. |
| Scenarios.TrigramWalkDrawsC | models/markov.py:135-140 | From ("a", "b") with one threshold up to 2/3, the walk draws "c" and is cut short with ["a", "b", "c"]. |
| Scenarios.TrigramWalkFails | models/markov.py:124-140 | From ("a", "b") with a first threshold up to 2/3, the walk draws "c", reaches the unseen key "bc", appends `None` and fails. |
| Scenarios.CatCorpus | models/markov.py:43-44 | ("the", "cat") and ("cat", "") build `{"the": {"cat": 1}, "cat": {"": 1}}`, which records the terminal token. |
| Scenarios.TerminatingWalk | models/markov.py:124-140 | With ("the", "cat") and ("cat", "") trained, the walk from "the" returns ["the", "cat", ""] for any two thresholds in [0, 1). |

## Left out

- Sampler.RandomSuffix: `random.random()` (markov.py:113) is a threshold parameter, not a random source. Statements about the distribution of draws are therefore out of scope; the contract and `RandomSuffixFirstReaching` fix the draw for each threshold.
- Sampler.RandomSequence: the `while True` loop (markov.py:135) consumes one threshold per iteration from a finite list. That adds an `OutOfFuel` outcome, which Python does not have. Running out of thresholds stands for a walk that has not ended yet. The iteration that fails also consumes a threshold, because line 136 draws before the join raises.
- Sampler.Walk: unbounded walks that never draw `''` are represented only by their finite prefixes (`OutOfFuel`). Non-termination is not a stated outcome.
- Markov.GetSuffixes: probabilities and the running sum `upto` (markov.py:82, 116) are exact reals, not floats. With floats, rounding can make the sum of a non-empty distribution fall short of a threshold near 1, and `random_suffix` then returns `None`. In the model the mass is exactly 1, so that fall-through cannot happen for thresholds in [0, 1).
- Markov.AddNGram: tokens are strings only. Python accepts any hashable last token (markov.py:38). For example, `add_ngram('a', None)` records a `None` suffix that the walk cannot tell apart from the `None` of an unseen prefix. Non-string prefix tokens make `''.join` raise `TypeError`, which is not modelled either.
- Markov.New: the `TypeError` for a non-integer order (markov.py:10-11) is dropped, because the order is an `int` by type.
- Markov.GetSuffixes: the `TypeError` re-raised when the prefix does not join (markov.py:71-74) is dropped, because prefix tokens are strings by type. The one `TypeError` that is kept is the join on `None` inside `random_sequence`, modelled as `Failed`.
- Sampler.RandomSequence: the docstring (markov.py:125-126) says the walk ends "at any prefix with no observed suffixes". The code does not: `random_suffix` returns `None` there, `None` is appended, and the next iteration fails in `''.join`. The model follows the code, as `Sampler.UnseenPrefixFails` and `Scenarios.TrigramWalkFails` show.
- Markov.Update: mutation in place and aliasing are modelled as values. `update` returns a new model, and `suffixes.copy()` (markov.py:104) is a value copy. The copy means the two models never share a dictionary, so values lose no sharing. The graph itself is a `map`, so the insertion order of prefix keys in `self.graph` (new prefixes are appended at markov.py:44 and 104) is not kept. No operation modelled here reads that order; iterating over or serialising `graph` would.
- The `deque` of `random_sequence` (markov.py:132) is a sequence holding the last `n - 1` entries of the output (`Sampler.Inv`).
- `import re` (markov.py:2) is unused in the source and has no counterpart.
