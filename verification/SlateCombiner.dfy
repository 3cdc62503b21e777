/**
 * The triple-redundant voter of vehicle/src/bullwinkle/all/SlateCombiner.cc: which sources are
 * fresh, and what each output element becomes.
 *
 * Element values are integers: any totally ordered type without incomparable values behaves alike.
 */
module SlateCombiner {
  import opened Common

  type Id = nat
  type Slate = map<Id, int>

  const MAX_SOURCES: nat := 3
  const SEQ_DEFAULT: int := -0x8000_0000_0000_0000

  // ---------- configured elements and their bins ----------

  /** A configured element: its type name, the output, and the inputs, one per source. */
  datatype Element = Element(kind: string, output: Id, inputs: seq<Id>)

  /** A bin lists, element by element, the output and then the inputs. */
  function Ids(es: seq<Element>): (r: seq<Id>) {
    if es == [] then [] else Ids(es[..|es| - 1]) + [es[|es| - 1].output] + es[|es| - 1].inputs
  }

  lemma IdsPush(es: seq<Element>, e: Element)
    ensures Ids(es + [e]) == Ids(es) + [e.output] + e.inputs
  {
    assert (es + [e])[..|es|] == es;
  }

  ghost predicate Uniform(es: seq<Element>, n: nat) {
    forall j :: 0 <= j < |es| ==> |es[j].inputs| == n
  }

  /** Where element j starts in its bin. */
  function At(es: seq<Element>, j: nat): (r: nat)
    requires j <= |es|
  {
    |Ids(es[..j])|
  }

  lemma {:induction false} IdsPrefix(es: seq<Element>, j: nat, n: nat)
    requires j <= |es| && Uniform(es, n)
    ensures |Ids(es[..j])| <= |Ids(es)| && Ids(es[..j]) == Ids(es)[..|Ids(es[..j])|]
    ensures |Ids(es[..j])| < |Ids(es)| <==> j < |es|
    decreases |es|
  {
    if j == |es| {
      assert es[..j] == es;
    } else {
      var c, e := es[..|es| - 1], es[|es| - 1];
      IdsPrefix(c, j, n);
      assert c[..j] == es[..j] && es == c + [e];
      IdsPush(c, e);
    }
  }

  /** The stride walk reads output and inputs of element j. */
  lemma ElementAt(es: seq<Element>, j: nat, n: nat)
    requires j < |es| && Uniform(es, n)
    ensures At(es, j + 1) == At(es, j) + n + 1 <= |Ids(es)|
    ensures Ids(es)[At(es, j)] == es[j].output
    ensures forall i :: At(es, j) < i <= At(es, j) + n ==> Ids(es)[i] == es[j].inputs[i - At(es, j) - 1]
  {
    hide Ids;
    assert es[..j + 1] == es[..j] + [es[j]];
    IdsPush(es[..j], es[j]);
    IdsPrefix(es, j + 1, n);
    var all, pre := Ids(es), Ids(es[..j + 1]);
    assert forall i :: 0 <= i < |pre| ==> all[i] == pre[i];
  }

  lemma AtEnds(es: seq<Element>, j: nat, n: nat)
    requires j <= |es| && Uniform(es, n)
    ensures At(es, 0) == 0 && At(es, j) <= |Ids(es)|
    ensures At(es, j) < |Ids(es)| <==> j < |es|
  {
    assert Ids([]) == [];
    IdsPrefix(es, j, n);
  }

  function Flatten(groups: seq<seq<Element>>): (r: seq<Element>) {
    if groups == [] then [] else Flatten(groups[..|groups| - 1]) + groups[|groups| - 1]
  }

  // ---------- what one element becomes ----------

  function Median(a: int, b: int, c: int): (r: int) {
    if a <= b then (if b <= c then b else if a <= c then c else a)
    else if a <= c then a else if b <= c then c else b
  }

  /** Any two agreeing values win, whatever the third is; the result is one of the three. */
  lemma MedianMajority(a: int, b: int, c: int)
    ensures a == b ==> Median(a, b, c) == a
    ensures a == c ==> Median(a, b, c) == a
    ensures b == c ==> Median(a, b, c) == b
    ensures Median(a, b, c) in {a, b, c}
    ensures Median(a, b, c) == Median(b, a, c) == Median(a, c, b)
  {
  }

  /** At most one value lies strictly on either side of the median. */
  lemma MedianIsMiddle(a: int, b: int, c: int)
    ensures var m := Median(a, b, c);
      && !(a < m && b < m) && !(a < m && c < m) && !(b < m && c < m)
      && !(a > m && b > m) && !(a > m && c > m) && !(b > m && c > m)
  {
  }

  /** What the connected sources and the mode make of every element. */
  datatype Choice = Keep | Copy(source: nat) | Larger(first: nat, second: nat) | Middle

  predicate Sensible(c: Choice, n: nat) {
    match c
    case Keep => true
    case Copy(s) => 1 <= s <= n
    case Larger(s, t) => 1 <= s <= n && 1 <= t <= n
    case Middle => n == 3
  }

  /** The value voted from the values of the sources. */
  function Vote(c: Choice, vals: seq<int>): (r: int)
    requires !c.Keep? && Sensible(c, |vals|)
  {
    match c
    case Copy(s) => vals[s - 1]
    case Larger(s, t) => Max(vals[s - 1], vals[t - 1])
    case Middle => Median(vals[0], vals[1], vals[2])
  }

  function Values(slate: Slate, e: Element): (r: seq<int>)
    requires forall i :: i in e.inputs ==> i in slate
    ensures |r| == |e.inputs|
  {
    seq(|e.inputs|, i requires 0 <= i < |e.inputs| => slate[e.inputs[i]])
  }

  ghost predicate Known(slate: Slate, es: seq<Element>) {
    forall j :: 0 <= j < |es| ==> es[j].output in slate && forall i :: i in es[j].inputs ==> i in slate
  }

  /** No output is written twice or read as an input. */
  ghost predicate Separate(es: seq<Element>) {
    && (forall i, j :: 0 <= i < j < |es| ==> es[i].output != es[j].output)
    && (forall i, j :: 0 <= i < |es| && 0 <= j < |es| ==> es[i].output !in es[j].inputs)
  }

  // ---------- the strided loops, as a fold over elements ----------

  function Apply(slate: Slate, es: seq<Element>, c: Choice, n: nat): (r: Slate)
    requires Known(slate, es) && Uniform(es, n) && !c.Keep? && Sensible(c, n)
    ensures r.Keys == slate.Keys
  {
    if es == [] then slate
    else
      var r := Apply(slate, es[..|es| - 1], c, n);
      var e := es[|es| - 1];
      r[e.output := Vote(c, Values(r, e))]
  }

  lemma {:induction false} ApplyTouchesOutputsOnly(slate: Slate, es: seq<Element>, c: Choice, n: nat, i: Id)
    requires Known(slate, es) && Uniform(es, n) && !c.Keep? && Sensible(c, n)
    requires i in slate && forall j :: 0 <= j < |es| ==> es[j].output != i
    ensures Apply(slate, es, c, n)[i] == slate[i]
  {
    if es != [] {
      hide Vote, Values;
      var init := es[..|es| - 1];
      assert forall j :: 0 <= j < |init| ==> init[j] == es[j];
      ApplyTouchesOutputsOnly(slate, init, c, n, i);
    }
  }

  /**
   * Processing elements one after the other in place is voting each from the original inputs:
   * every output gets its vote (and, by the lemma above, nothing else changes).
   */
  lemma {:induction false} ApplyIsPerElement(slate: Slate, es: seq<Element>, c: Choice, n: nat, j: nat)
    requires Known(slate, es) && Uniform(es, n) && !c.Keep? && Sensible(c, n) && Separate(es) && j < |es|
    ensures Apply(slate, es, c, n)[es[j].output] == Vote(c, Values(slate, es[j]))
  {
    hide Vote;
    var init, e := es[..|es| - 1], es[|es| - 1];
    assert forall l :: 0 <= l < |init| ==> init[l] == es[l];
    if j < |init| {
      ApplyIsPerElement(slate, init, c, n, j);
    } else {
      var r := Apply(slate, init, c, n);
      forall i | i in e.inputs ensures r[i] == slate[i] {
        ApplyTouchesOutputsOnly(slate, init, c, n, i);
      }
      assert Values(r, e) == Values(slate, e);
    }
  }

  lemma {:induction false} ApplyConcat(slate: Slate, a: seq<Element>, b: seq<Element>, c: Choice, n: nat)
    requires Known(slate, a + b) && Known(slate, a) && Known(slate, b)
    requires Uniform(a, n) && Uniform(b, n) && Uniform(a + b, n) && !c.Keep? && Sensible(c, n)
    ensures Apply(slate, a + b, c, n) == Apply(Apply(slate, a, c, n), b, c, n)
  {
    hide Vote, Values, Apply;
    if b == [] {
      assert a + b == a;
      ApplyNothing(Apply(slate, a, c, n), b, c, n);
    } else {
      var d, e := b[..|b| - 1], b[|b| - 1];
      assert (a + d) + [e] == a + b && d + [e] == b;
      PrefixKnown(slate, a + d, e, n);
      PrefixKnown(slate, d, e, n);
      ApplyConcat(slate, a, d, c, n);
      ApplyPush(slate, a + d, e, c, n);
      ApplyPush(Apply(slate, a, c, n), d, e, c, n);
    }
  }

  lemma PrefixKnown(slate: Slate, es: seq<Element>, e: Element, n: nat)
    requires Known(slate, es + [e]) && Uniform(es + [e], n)
    ensures Known(slate, es) && Uniform(es, n)
  {
    assert forall j :: 0 <= j < |es| ==> (es + [e])[j] == es[j];
  }

  lemma ApplyNothing(slate: Slate, es: seq<Element>, c: Choice, n: nat)
    requires es == [] && !c.Keep? && Sensible(c, n)
    ensures Apply(slate, es, c, n) == slate
  {
  }

  lemma ApplyPush(slate: Slate, es: seq<Element>, e: Element, c: Choice, n: nat)
    requires Known(slate, es + [e]) && Uniform(es + [e], n) && Known(slate, es) && Uniform(es, n)
    requires !c.Keep? && Sensible(c, n)
    ensures |e.inputs| == n && forall i :: i in e.inputs ==> i in slate
    ensures Apply(slate, es + [e], c, n) == Apply(slate, es, c, n)[e.output := Vote(c, Values(Apply(slate, es, c, n), e))]
  {
    hide Vote, Values;
    assert (es + [e])[..|es|] == es && (es + [e])[|es|] == e;
  }

  // ---------- freshness ----------

  datatype Source = Source(last: int, age: nat, connected: bool)

  /** A fresh value that is neither zero nor the default, and is new or is the one asked for. */
  predicate Updated(stamp: int, last: int, accepted: int, anySequence: int) {
    stamp != 0 && stamp != SEQ_DEFAULT &&
    if accepted == anySequence then stamp != last else stamp == accepted
  }

  function StepSource(s: Source, stamp: int, accepted: int, anySequence: int, threshold: nat): (r: Source) {
    var updated := Updated(stamp, s.last, accepted, anySequence);
    var last := if updated then stamp else s.last;
    var age := if updated then 0 else if s.age < threshold then s.age + 1 else s.age;
    Source(last, age, age < threshold)
  }

  /** What a source starts as. */
  function NewSource(threshold: nat): (r: Source) { Source(SEQ_DEFAULT, threshold, false) }

  /** The state after a run of cycles; each cycle has a freshness value and an accepted number. */
  function RunSource(cycles: seq<(int, int)>, anySequence: int, threshold: nat): (r: Source) {
    if cycles == [] then NewSource(threshold)
    else
      var (stamp, accepted) := cycles[|cycles| - 1];
      StepSource(RunSource(cycles[..|cycles| - 1], anySequence, threshold), stamp, accepted, anySequence, threshold)
  }

  /** Did the source update in cycle t of the run? */
  predicate UpdatedAt(cycles: seq<(int, int)>, t: nat, anySequence: int, threshold: nat)
    requires t < |cycles|
  {
    Updated(cycles[t].0, RunSource(cycles[..t], anySequence, threshold).last, cycles[t].1, anySequence)
  }

  /** The freshness value of the latest update, or the default if there was none. */
  function LastTaken(cycles: seq<(int, int)>, anySequence: int, threshold: nat): (r: int) {
    if cycles == [] then -0x8000_0000_0000_0000
    else if UpdatedAt(cycles, |cycles| - 1, anySequence, threshold) then cycles[|cycles| - 1].0
    else LastTaken(cycles[..|cycles| - 1], anySequence, threshold)
  }

  lemma {:induction false} LastIsTaken(cycles: seq<(int, int)>, anySequence: int, threshold: nat)
    ensures RunSource(cycles, anySequence, threshold).last == LastTaken(cycles, anySequence, threshold)
  {
    if cycles != [] {
      LastIsTaken(cycles[..|cycles| - 1], anySequence, threshold);
    }
  }

  /**
   * What counts as an update: a value other than zero and the default that is the accepted number,
   * or, where any number is accepted, another value than at the latest update.
   */
  lemma UpdatesExactly(cycles: seq<(int, int)>, t: nat, anySequence: int, threshold: nat)
    requires t < |cycles|
    ensures var (stamp, accepted) := cycles[t];
      UpdatedAt(cycles, t, anySequence, threshold) <==>
        (stamp != 0 && stamp != -0x8000_0000_0000_0000
         && (accepted != anySequence ==> stamp == accepted)
         && (accepted == anySequence ==> stamp != LastTaken(cycles[..t], anySequence, threshold)))
  {
    LastIsTaken(cycles[..t], anySequence, threshold);
  }

  /** The latest value that is neither zero nor the default, or the default. */
  function LastValid(stamps: seq<int>): (r: int) {
    if stamps == [] then -0x8000_0000_0000_0000
    else if stamps[|stamps| - 1] != 0 && stamps[|stamps| - 1] != -0x8000_0000_0000_0000 then stamps[|stamps| - 1]
    else LastValid(stamps[..|stamps| - 1])
  }

  /** Where any number is accepted, an update is a change of the latest valid value, and nothing else. */
  lemma {:induction false} UpdateIsChange(cycles: seq<(int, int)>, stamps: seq<int>, anySequence: int, threshold: nat)
    requires |stamps| == |cycles| && forall t :: 0 <= t < |cycles| ==> cycles[t] == (stamps[t], anySequence)
    ensures RunSource(cycles, anySequence, threshold).last == LastValid(stamps)
    ensures cycles != [] ==>
      (UpdatedAt(cycles, |cycles| - 1, anySequence, threshold) <==> LastValid(stamps) != LastValid(stamps[..|stamps| - 1]))
  {
    if cycles != [] {
      UpdateIsChange(cycles[..|cycles| - 1], stamps[..|cycles| - 1], anySequence, threshold);
    }
  }

  /** Cycles since the last update, or the number of cycles if there was none. */
  function SinceUpdate(cycles: seq<(int, int)>, anySequence: int, threshold: nat): (r: nat)
    ensures r <= |cycles|
  {
    if cycles == [] then 0
    else if UpdatedAt(cycles, |cycles| - 1, anySequence, threshold) then 0
    else 1 + SinceUpdate(cycles[..|cycles| - 1], anySequence, threshold)
  }

  /**
   * The stored age is the number of cycles since the last update, capped at the threshold, and the
   * source is connected exactly when it updated in one of the last `threshold` cycles.
   */
  lemma {:induction false} FreshnessOverRuns(cycles: seq<(int, int)>, anySequence: int, threshold: nat)
    requires threshold >= 1
    ensures var s := RunSource(cycles, anySequence, threshold);
      && s.age <= threshold
      && (forall t :: 0 <= t < |cycles| && UpdatedAt(cycles, t, anySequence, threshold) ==>
            s.age <= |cycles| - 1 - t)
      && (s.age < threshold ==> s.age < |cycles| && UpdatedAt(cycles, |cycles| - 1 - s.age, anySequence, threshold))
      && (cycles != [] ==> (s.connected <==> s.age < threshold))
  {
    if cycles != [] {
      var n := |cycles| - 1;
      FreshnessOverRuns(cycles[..n], anySequence, threshold);
      var p := RunSource(cycles[..n], anySequence, threshold);
      forall t | 0 <= t < n
        ensures UpdatedAt(cycles[..n], t, anySequence, threshold) == UpdatedAt(cycles, t, anySequence, threshold)
      {
        assert cycles[..n][..t] == cycles[..t];
      }
    }
  }

  /** The age in those terms: cycles since the last update, capped; a source that never updated is stale. */
  lemma {:induction false} AgeIsCapped(cycles: seq<(int, int)>, anySequence: int, threshold: nat)
    ensures var since, age := SinceUpdate(cycles, anySequence, threshold), RunSource(cycles, anySequence, threshold).age;
      && age == (if since < |cycles| then Min(since, threshold) else threshold)
      && (since < |cycles| ==> UpdatedAt(cycles, |cycles| - 1 - since, anySequence, threshold))
      && (forall t :: |cycles| - since <= t < |cycles| ==> !UpdatedAt(cycles, t, anySequence, threshold))
  {
    if cycles != [] {
      var n := |cycles| - 1;
      AgeIsCapped(cycles[..n], anySequence, threshold);
      forall t | 0 <= t < n
        ensures UpdatedAt(cycles[..n], t, anySequence, threshold) == UpdatedAt(cycles, t, anySequence, threshold)
      {
        assert cycles[..n][..t] == cycles[..t];
      }
    }
  }

  /** An update in the last `threshold` cycles. */
  predicate Recent(cycles: seq<(int, int)>, anySequence: int, threshold: nat) {
    exists t :: 0 <= t < |cycles| && |cycles| - threshold <= t && UpdatedAt(cycles, t, anySequence, threshold)
  }

  /** The same as one equivalence over the window of cycles. */
  lemma ConnectedWindow(cycles: seq<(int, int)>, anySequence: int, threshold: nat)
    requires threshold >= 1 && cycles != []
    ensures RunSource(cycles, anySequence, threshold).connected <==> Recent(cycles, anySequence, threshold)
  {
    FreshnessOverRuns(cycles, anySequence, threshold);
    hide UpdatedAt, RunSource;
    var s := RunSource(cycles, anySequence, threshold);
    if s.connected {
      assert UpdatedAt(cycles, |cycles| - 1 - s.age, anySequence, threshold);
    }
  }

  /** What a run of cycles shows a source: its freshness element, and the accepted number. */
  function History(cycles: seq<(Slate, int)>, stamp: Id): (h: seq<(int, int)>)
    requires forall c :: c in cycles ==> stamp in c.0
    ensures |h| == |cycles| && forall t :: 0 <= t < |h| ==> h[t] == (cycles[t].0[stamp], cycles[t].1)
  {
    seq(|cycles|, t requires 0 <= t < |cycles| => (cycles[t].0[stamp], cycles[t].1))
  }

  lemma HistoryNext(past: seq<(Slate, int)>, c: (Slate, int), stamp: Id, anySequence: int, threshold: nat)
    requires stamp in c.0 && forall p :: p in past ==> stamp in p.0
    ensures RunSource(History(past + [c], stamp), anySequence, threshold) ==
            StepSource(RunSource(History(past, stamp), anySequence, threshold), c.0[stamp], c.1, anySequence, threshold)
  {
    hide StepSource;
    var h := History(past + [c], stamp);
    assert h[..|past|] == History(past, stamp);
  }

  // ---------- which sources vote ----------

  /** The 1-based indices of the connected sources among the first n, in order. */
  function Connected(sources: seq<Source>, n: nat): (r: seq<nat>)
    requires n <= |sources|
  {
    if n == 0 then []
    else Connected(sources, n - 1) + (if sources[n - 1].connected then [n] else [])
  }

  lemma {:induction false} ConnectedBounds(sources: seq<Source>, n: nat)
    requires n <= |sources|
    ensures var c := Connected(sources, n);
      && |c| <= n
      && (forall i :: 0 <= i < |c| ==> 1 <= c[i] <= n && sources[c[i] - 1].connected)
      && (forall k :: 1 <= k <= n && sources[k - 1].connected ==> k in c)
      && (forall i, j :: 0 <= i < j < |c| ==> c[i] < c[j])
      && (|c| == n ==> forall i :: 0 <= i < n ==> c[i] == i + 1)
  {
    if n > 0 { ConnectedBounds(sources, n - 1); }
  }

  /** The two switches of validate_and_combine. */
  function Choose(c: seq<nat>, downselect: bool, bEqualsC: bool): (r: Choice) {
    if |c| == 0 || |c| > 3 then Keep
    else if |c| == 1 then Copy(c[0])
    else if downselect then (if |c| == 3 && bEqualsC then Copy(2) else if |c| == 3 then Copy(1) else Copy(c[0]))
    else if |c| == 2 then Larger(c[0], c[1])
    else Middle
  }

  /** Two sources hold the same value in every element. */
  ghost predicate Agree(slate: Slate, es: seq<Element>, s: nat, t: nat, n: nat)
    requires Known(slate, es) && Uniform(es, n) && 1 <= s <= n && 1 <= t <= n
  {
    forall j :: 0 <= j < |es| ==> Values(slate, es[j])[s - 1] == Values(slate, es[j])[t - 1]
  }

  /** With three connected sources, two that fully agree are what downselect mode outputs. */
  lemma DownselectFollowsMajority(slate: Slate, es: seq<Element>, s: nat, t: nat, j: nat)
    requires Known(slate, es) && Uniform(es, 3) && 1 <= s < t <= 3 && j < |es|
    requires Agree(slate, es, s, t, 3)
    ensures var c := Choose([1, 2, 3], true, Agree(slate, es, 2, 3, 3));
      Vote(c, Values(slate, es[j])) == Values(slate, es[j])[s - 1]
  {
    assert Values(slate, es[j])[s - 1] == Values(slate, es[j])[t - 1];
    if Agree(slate, es, 2, 3, 3) {
      assert Values(slate, es[j])[1] == Values(slate, es[j])[2];
    }
  }

  /** With three connected sources, per-element mode outputs any value two of them share. */
  lemma MedianFollowsMajority(vals: seq<int>, s: nat, t: nat)
    requires |vals| == 3 && 1 <= s < t <= 3 && vals[s - 1] == vals[t - 1]
    ensures Vote(Choose([1, 2, 3], false, false), vals) == vals[s - 1]
  {
    MedianMajority(vals[0], vals[1], vals[2]);
  }

  /**
   * What an output may be, from the input values and the connected sources c.  One connected source
   * is copied.  Of two, downselect mode copies the first and per-element mode takes the larger
   * value.  Of three, downselect mode copies the second if it fully agrees with the third, else the
   * first, and per-element mode takes a value with one of the others on either side.
   */
  ghost predicate Outcome(v: int, vals: seq<int>, c: seq<nat>, downselect: bool, agree: bool)
    requires forall i :: 0 <= i < |c| ==> 1 <= c[i] <= |vals|
  {
    && (|c| == 1 ==> v == vals[c[0] - 1])
    && (|c| == 2 ==>
          var x, y := vals[c[0] - 1], vals[c[1] - 1];
          if downselect then v == x else v in {x, y} && v >= x && v >= y)
    && (|c| == 3 ==>
          var x, y, z := vals[c[0] - 1], vals[c[1] - 1], vals[c[2] - 1];
          if downselect then v == (if agree then y else x)
          else || (v == x && (y <= v <= z || z <= v <= y))
               || (v == y && (x <= v <= z || z <= v <= x))
               || (v == z && (x <= v <= y || y <= v <= x)))
  }

  lemma VotedValue(vals: seq<int>, c: seq<nat>, downselect: bool, agree: bool)
    requires 1 <= |c| <= |vals| <= 3 && forall i :: 0 <= i < |c| ==> 1 <= c[i] <= |vals|
    requires |c| == |vals| ==> forall i :: 0 <= i < |c| ==> c[i] == i + 1
    ensures var choice := Choose(c, downselect, agree);
      !choice.Keep? && Sensible(choice, |vals|) && Outcome(Vote(choice, vals), vals, c, downselect, agree)
  {
  }

  lemma KeepsExactly(c: seq<nat>, downselect: bool, agree: bool)
    requires |c| <= 3
    ensures Choose(c, downselect, agree).Keep? <==> c == []
  {
  }

  // ---------- binning ----------

  /** Every configured element is counted once, no two share an output, no output is an input. */
  ghost predicate Disjoint(m: multiset<Element>) {
    && (forall e :: e in m ==> m[e] == 1)
    && (forall e, f :: e in m && f in m && e != f ==> e.output != f.output)
    && (forall e, f :: e in m && f in m ==> e.output !in f.inputs)
  }

  lemma TwoOccurrences(es: seq<Element>, i: nat, j: nat)
    requires i < j < |es|
    ensures es[i] == es[j] ==> multiset(es)[es[i]] >= 2
  {
    assert es == es[..j] + es[j..];
    assert es[..j][i] == es[i] && es[j..][0] == es[j];
    assert es[i] in multiset(es[..j]) && es[j] in multiset(es[j..]);
  }

  lemma DisjointIsSeparate(es: seq<Element>)
    requires Disjoint(multiset(es))
    ensures Separate(es)
  {
    forall i, j | 0 <= i < j < |es| ensures es[i].output != es[j].output {
      TwoOccurrences(es, i, j);
      assert es[i] in multiset(es) && es[j] in multiset(es);
    }
    forall i, j | 0 <= i < |es| && 0 <= j < |es| ensures es[i].output !in es[j].inputs {
      assert es[i] in multiset(es) && es[j] in multiset(es);
    }
  }

  lemma FlattenPush(groups: seq<seq<Element>>, g: seq<Element>)
    ensures Flatten(groups + [g]) == Flatten(groups) + g
  {
    assert (groups + [g])[..|groups|] == groups;
  }

  lemma FlattenTake(groups: seq<seq<Element>>, b: nat)
    requires b < |groups|
    ensures Flatten(groups[..b + 1]) == Flatten(groups[..b]) + groups[b]
  {
    assert groups[..b + 1] == groups[..b] + [groups[b]];
    FlattenPush(groups[..b], groups[b]);
  }

  /** Appending an element to one bin adds it once to all elements. */
  lemma {:induction false} FlattenExtend(groups: seq<seq<Element>>, b: nat, e: Element)
    requires b < |groups|
    ensures multiset(Flatten(groups[b := groups[b] + [e]])) == multiset(Flatten(groups)) + multiset{e}
  {
    hide Flatten;
    var n := |groups| - 1;
    var init, last := groups[..n], groups[n];
    assert groups == init + [last];
    FlattenPush(init, last);
    if b == n {
      FlattenPush(init, last + [e]);
      assert groups[b := last + [e]] == init + [last + [e]];
    } else {
      var grown := init[b := init[b] + [e]];
      FlattenExtend(init, b, e);
      FlattenPush(grown, last);
      assert groups[b := groups[b] + [e]] == grown + [last];
    }
  }

  /** The bins of a combiner, and the elements each lists. */
  ghost predicate Binned(bins: seq<seq<Id>>, groups: seq<seq<Element>>, binSelect: map<string, nat>, n: nat) {
    && |bins| == |groups|
    && (forall t :: t in binSelect ==> binSelect[t] < |bins|)
    && (forall b :: 0 <= b < |bins| ==> bins[b] == Ids(groups[b]) && Uniform(groups[b], n))
    && (forall b, j :: 0 <= b < |groups| && 0 <= j < |groups[b]| ==>
          groups[b][j].kind in binSelect && binSelect[groups[b][j].kind] == b)
  }

  /** An element goes to the end of the bin of its type, which is created when there is none. */
  lemma BinnedStep(bins: seq<seq<Id>>, groups: seq<seq<Element>>, binSelect: map<string, nat>, n: nat, e: Element)
    requires Binned(bins, groups, binSelect, n) && |e.inputs| == n
    requires e.kind in binSelect
    ensures var b := binSelect[e.kind];
      Binned(bins[b := bins[b] + ([e.output] + e.inputs)], groups[b := groups[b] + [e]], binSelect, n)
  {
    var b := binSelect[e.kind];
    IdsPush(groups[b], e);
    hide Ids;
    assert bins[b] + ([e.output] + e.inputs) == bins[b] + [e.output] + e.inputs;
    var after := groups[b := groups[b] + [e]];
    assert Uniform(after[b], n);
  }

  lemma NewBin(bins: seq<seq<Id>>, groups: seq<seq<Element>>, binSelect: map<string, nat>, n: nat, kind: string)
    requires Binned(bins, groups, binSelect, n) && kind !in binSelect
    ensures Binned(bins + [[]], groups + [[]], binSelect[kind := |bins|], n)
    ensures Flatten(groups + [[]]) == Flatten(groups)
  {
    assert Ids([]) == [];
    FlattenPush(groups, []);
  }

  // ---------- the combiner ----------

  lemma {:induction false} KnownPrefix(slate: Slate, groups: seq<seq<Element>>, b: nat, n: nat)
    requires b <= |groups|
    requires Known(slate, Flatten(groups)) && Uniform(Flatten(groups), n)
    ensures Known(slate, Flatten(groups[..b])) && Uniform(Flatten(groups[..b]), n)
    ensures b < |groups| ==> Known(slate, groups[b]) && Uniform(groups[b], n)
    decreases |groups|
  {
    if b == |groups| {
      assert groups[..b] == groups;
    } else {
      var m := |groups| - 1;
      var a, g := Flatten(groups[..m]), groups[m];
      assert groups == groups[..m] + [g];
      assert forall j :: 0 <= j < |a| ==> a[j] == (a + g)[j];
      assert forall j :: 0 <= j < |g| ==> g[j] == (a + g)[|a| + j];
      KnownPrefix(slate, groups[..m], b, n);
      assert groups[..m][..b] == groups[..b];
    }
  }

  class SlateCombiner {
    const numSources: nat
    const staleThreshold: nat
    const downselect: bool
    const anySequence: int
    const stamps: seq<Id>         // the freshness element of each source

    var slate: Slate
    var bins: seq<seq<Id>>
    var binSelect: map<string, nat>
    var sources: seq<Source>
    var combinedConnected: bool

    /** The configured elements, and the elements of each bin. */
    ghost var Config: seq<Element>
    ghost var Groups: seq<seq<Element>>

    ghost predicate Valid()
      reads this
    {
      && 1 <= numSources <= MAX_SOURCES && staleThreshold >= 1
      && |stamps| == numSources && |sources| == numSources
      && (forall i :: 0 <= i < numSources ==> stamps[i] in slate)
      && Binned(bins, Groups, binSelect, numSources)
      && multiset(Flatten(Groups)) == multiset(Config)
      && Known(slate, Flatten(Groups)) && Uniform(Flatten(Groups), numSources)
    }

    constructor (slate: Slate, stamps: seq<Id>, staleThreshold: nat, downselect: bool, anySequence: int)
      requires 1 <= |stamps| <= MAX_SOURCES && staleThreshold >= 1
      requires forall i :: 0 <= i < |stamps| ==> stamps[i] in slate
      ensures Valid() && Config == [] && this.slate == slate
      ensures sources == seq(|stamps|, _ => NewSource(staleThreshold))
      ensures forall i :: 0 <= i < |stamps| ==> sources[i] == Source(-0x8000_0000_0000_0000, staleThreshold, false)
      ensures numSources == |stamps| && this.stamps == stamps && this.staleThreshold == staleThreshold
      ensures this.downselect == downselect && this.anySequence == anySequence && !combinedConnected
    {
      this.numSources := |stamps|;
      this.staleThreshold := staleThreshold;
      this.downselect := downselect;
      this.anySequence := anySequence;
      this.stamps := stamps;
      this.slate := slate;
      bins, binSelect := [], map[];
      sources := seq(|stamps|, _ => NewSource(staleThreshold));
      combinedConnected := false;
      Config, Groups := [], [];
    }

    /** init_element for an element whose output and inputs were found. */
    method InitElement(kind: string, output: Id, inputs: seq<Id>)
      requires Valid() && |inputs| == numSources
      requires output in slate && forall i :: i in inputs ==> i in slate
      modifies this`bins, this`binSelect, this`Config, this`Groups
      ensures Valid() && Config == old(Config) + [Element(kind, output, inputs)]
    {
      hide Ids, Flatten, Binned;
      if kind !in binSelect {
        NewBin(bins, Groups, binSelect, numSources, kind);
        binSelect := binSelect[kind := |bins|];
        bins := bins + [[]];
        Groups := Groups + [[]];
      }
      var b := binSelect[kind];
      ghost var e := Element(kind, output, inputs);
      SelectInRange(kind);
      BinnedStep(bins, Groups, binSelect, numSources, e);
      ExtendKnown(b, e);
      var ids := bins[b] + [output];
      for i := 0 to |inputs|
        invariant ids == bins[b] + [output] + inputs[..i]
      {
        ids := ids + [inputs[i]];
      }
      assert ids == bins[b] + ([output] + inputs);
      bins := bins[b := ids];
      FlattenExtend(Groups, b, e);
      Groups := Groups[b := Groups[b] + [e]];
      Config := Config + [e];
    }

    lemma SelectInRange(kind: string)
      requires Binned(bins, Groups, binSelect, numSources) && kind in binSelect
      ensures binSelect[kind] < |bins| == |Groups|
    {
    }

    lemma ExtendKnown(b: nat, e: Element)
      requires b < |Groups| && Known(slate, Flatten(Groups)) && Uniform(Flatten(Groups), numSources)
      requires Known(slate, [e]) && Uniform([e], numSources)
      ensures var after := Flatten(Groups[b := Groups[b] + [e]]);
        Known(slate, after) && Uniform(after, numSources)
    {
      var before, after := Flatten(Groups), Flatten(Groups[b := Groups[b] + [e]]);
      FlattenExtend(Groups, b, e);
      forall j | 0 <= j < |after| ensures after[j] == e || after[j] in before {
        assert after[j] in multiset(after);
      }
      assert [e][0] == e;
    }

    /** The loop over the sources. */
    method UpdateSources(accepted: int) returns (indices: seq<nat>)
      requires Valid()
      modifies this`sources, this`combinedConnected
      ensures Valid()
      ensures forall i :: 0 <= i < numSources ==>
        sources[i] == StepSource(old(sources[i]), slate[stamps[i]], accepted, anySequence, staleThreshold)
      ensures indices == Connected(sources, numSources)
      ensures combinedConnected <==> indices != []
    {
      hide Binned, Flatten, Known, Uniform, StepSource, Connected;
      indices := [];
      combinedConnected := false;
      ghost var was := sources;
      ConnectedStart(sources);
      for i := 0 to numSources
        invariant |sources| == numSources
        invariant forall k :: 0 <= k < i ==>
            sources[k] == StepSource(was[k], slate[stamps[k]], accepted, anySequence, staleThreshold)
        invariant forall k :: i <= k < numSources ==> sources[k] == was[k]
        invariant indices == Connected(sources, i)
        invariant combinedConnected <==> indices != []
      {
        ghost var before := sources;
        var next := UpdateSource(sources[i], slate[stamps[i]], accepted);
        if next.connected {
          combinedConnected := true;
          indices := indices + [i + 1];
        }
        sources := sources[i := next];
        ConnectedPrefix(before, sources, i);
        ConnectedNext(sources, i);
      }
    }

    /** One turn of that loop. */
    method UpdateSource(source: Source, stamp: int, accepted: int) returns (next: Source)
      ensures next == StepSource(source, stamp, accepted, anySequence, staleThreshold)
    {
      var updated := false;
      if stamp != 0 && stamp != SEQ_DEFAULT {
        if accepted == anySequence {
          updated := stamp != source.last;
        } else {
          updated := stamp == accepted;
        }
      }
      var last, age := source.last, source.age;
      if updated {
        last, age := stamp, 0;
      } else if age < staleThreshold {
        age := age + 1;
      }
      var connected := false;
      if age < staleThreshold {
        connected := true;
      }
      next := Source(last, age, connected);
    }

    ghost predicate Usable(es: seq<Element>)
      reads this
    {
      Known(slate, es) && Uniform(es, numSources)
    }

    /** bin_eq: both sources agree in every element of a bin. */
    method BinEq(src1: nat, src2: nat, ids: seq<Id>, ghost es: seq<Element>, sofar: bool) returns (result: bool)
      requires Usable(es) && ids == Ids(es) && 1 <= src1 <= numSources && 1 <= src2 <= numSources
      ensures result <==> sofar && Agree(slate, es, src1, src2, numSources)
    {
      hide Ids, At;
      result := sofar;
      var i := 0;
      ghost var j := 0;
      AtEnds(es, 0, numSources);
      while i < |ids|
        invariant j <= |es| && i == At(es, j) <= |ids| && (i < |ids| <==> j < |es|)
        invariant result <==>
          (sofar && forall l :: 0 <= l < j ==> Values(slate, es[l])[src1 - 1] == Values(slate, es[l])[src2 - 1])
        decreases |ids| - i
      {
        ElementAt(es, j, numSources);
        AtEnds(es, j + 1, numSources);
        assert ids[i + src1] == es[j].inputs[src1 - 1] && ids[i + src2] == es[j].inputs[src2 - 1];
        result := result && slate[ids[i + src1]] == slate[ids[i + src2]];
        i := i + (numSources + 1);
        j := j + 1;
      }
    }

    /** bin_copy. */
    method BinCopy(src: nat, ids: seq<Id>, ghost es: seq<Element>)
      requires Usable(es) && ids == Ids(es) && 1 <= src <= numSources
      modifies this`slate
      ensures slate == Apply(old(slate), es, Copy(src), numSources)
    {
      hide Ids, At, Apply;
      var i := 0;
      ghost var j := 0;
      AtEnds(es, 0, numSources);
      ApplyNone(slate, es, Copy(src), numSources);
      while i < |ids|
        invariant j <= |es| && i == At(es, j) <= |ids| && (i < |ids| <==> j < |es|)
        invariant slate == Apply(old(slate), es[..j], Copy(src), numSources)
        decreases |ids| - i
      {
        ElementAt(es, j, numSources);
        AtEnds(es, j + 1, numSources);
        ApplyNext(old(slate), es, j, Copy(src), numSources);
        assert ids[i + src] == es[j].inputs[src - 1];
        var val := slate[ids[i + src]];
        slate := slate[ids[i] := val];
        i := i + (numSources + 1);
        j := j + 1;
      }
      assert es[..j] == es;
    }

    /** bin_max. */
    method BinMax(src1: nat, src2: nat, ids: seq<Id>, ghost es: seq<Element>)
      requires Usable(es) && ids == Ids(es) && 1 <= src1 <= numSources && 1 <= src2 <= numSources
      modifies this`slate
      ensures slate == Apply(old(slate), es, Larger(src1, src2), numSources)
    {
      hide Ids, At, Apply;
      var i := 0;
      ghost var j := 0;
      ghost var c := Larger(src1, src2);
      AtEnds(es, 0, numSources);
      ApplyNone(slate, es, c, numSources);
      while i < |ids|
        invariant j <= |es| && i == At(es, j) <= |ids| && (i < |ids| <==> j < |es|)
        invariant slate == Apply(old(slate), es[..j], c, numSources)
        decreases |ids| - i
      {
        ElementAt(es, j, numSources);
        AtEnds(es, j + 1, numSources);
        ApplyNext(old(slate), es, j, c, numSources);
        assert ids[i + src1] == es[j].inputs[src1 - 1] && ids[i + src2] == es[j].inputs[src2 - 1];
        var val1, val2 := slate[ids[i + src1]], slate[ids[i + src2]];
        var maxval := if val1 < val2 then val2 else val1;
        slate := slate[ids[i] := maxval];
        i := i + (numSources + 1);
        j := j + 1;
      }
      assert es[..j] == es;
    }

    /** bin_median. */
    method BinMedian(ids: seq<Id>, ghost es: seq<Element>)
      requires Usable(es) && ids == Ids(es) && numSources == 3
      modifies this`slate
      ensures slate == Apply(old(slate), es, Middle, numSources)
    {
      hide Ids, At, Apply;
      var i := 0;
      ghost var j := 0;
      AtEnds(es, 0, numSources);
      ApplyNone(slate, es, Middle, numSources);
      while i < |ids|
        invariant j <= |es| && i == At(es, j) <= |ids| && (i < |ids| <==> j < |es|)
        invariant slate == Apply(old(slate), es[..j], Middle, numSources)
        decreases |ids| - i
      {
        ElementAt(es, j, numSources);
        AtEnds(es, j + 1, numSources);
        ApplyNext(old(slate), es, j, Middle, numSources);
        assert ids[i + 1] == es[j].inputs[0] && ids[i + 2] == es[j].inputs[1] && ids[i + 3] == es[j].inputs[2];
        var median := Median(slate[ids[i + 1]], slate[ids[i + 2]], slate[ids[i + 3]]);
        slate := slate[ids[i] := median];
        i := i + (MAX_SOURCES + 1);
        j := j + 1;
      }
      assert es[..j] == es;
    }

    /** The comparison of sources b and c over all bins. */
    method AllBinsEqual() returns (bEqualsC: bool)
      requires Valid() && numSources == 3
      ensures bEqualsC <==> Agree(slate, Flatten(Groups), 2, 3, numSources)
    {
      hide Ids, Agree, Flatten, Known, Uniform;
      bEqualsC := true;
      KnownPrefix(slate, Groups, 0, numSources);
      AgreeNone(slate);
      for b := 0 to |bins|
        invariant Known(slate, Flatten(Groups[..b])) && Uniform(Flatten(Groups[..b]), numSources)
        invariant bEqualsC <==> Agree(slate, Flatten(Groups[..b]), 2, 3, numSources)
      {
        KnownPrefix(slate, Groups, b, numSources);
        KnownPrefix(slate, Groups, b + 1, numSources);
        FlattenTake(Groups, b);
        AgreeConcat(slate, Flatten(Groups[..b]), Groups[b], numSources);
        bEqualsC := BinEq(2, 3, bins[b], Groups[b], bEqualsC);
      }
      assert Groups[..|bins|] == Groups;
    }

    /** The switch over the number of voting sources, for every bin. */
    method Dispatch(c: Choice)
      requires Valid() && !c.Keep? && Sensible(c, numSources)
      modifies this`slate
      ensures Valid() && slate == Apply(old(slate), Flatten(Groups), c, numSources)
    {
      hide Ids, Flatten, Apply, Known, Uniform, Sensible;
      ghost var was := slate;
      KnownPrefix(was, Groups, 0, numSources);
      NoElements(was, c, numSources);
      for b := 0 to |bins|
        invariant slate.Keys == was.Keys
        invariant Known(was, Flatten(Groups[..b])) && Uniform(Flatten(Groups[..b]), numSources)
        invariant slate == Apply(was, Flatten(Groups[..b]), c, numSources)
      {
        KnownPrefix(was, Groups, b, numSources);
        KnownPrefix(was, Groups, b + 1, numSources);
        FlattenTake(Groups, b);
        SameKeys(was, slate, Groups[b]);
        ApplyConcat(was, Flatten(Groups[..b]), Groups[b], c, numSources);
        ChoiceBounds(c, numSources);
        match c {
          case Copy(src) => BinCopy(src, bins[b], Groups[b]);
          case Larger(src1, src2) => BinMax(src1, src2, bins[b], Groups[b]);
          case Middle => BinMedian(bins[b], Groups[b]);
        }
      }
      assert Groups[..|bins|] == Groups;
      SameKeys(was, slate, Flatten(Groups));
    }

    /**
     * validate_and_combine: freshness of every source, then one vote for every configured element
     * from the input values at the start of the cycle, and no other change to the slate.
     */
    method ValidateAndCombine(accepted: int) returns (ghost choice: Choice)
      requires Valid() && Disjoint(multiset(Config))
      modifies this`sources, this`combinedConnected, this`slate
      ensures Valid() && Sensible(choice, numSources)
      ensures forall i :: 0 <= i < numSources ==>
        sources[i] == StepSource(old(sources[i]), old(slate)[stamps[i]], accepted, anySequence, staleThreshold)
      ensures combinedConnected <==> exists i :: 0 <= i < numSources && sources[i].connected
      ensures choice == Choose(Connected(sources, numSources), downselect,
                               Agree(old(slate), Flatten(Groups), if numSources == 3 then 2 else 1, numSources, numSources))
      ensures choice.Keep? <==> !combinedConnected
      ensures choice.Keep? ==> slate == old(slate)
      ensures !choice.Keep? ==> forall e :: e in Config ==>
        e.output in slate && Voted(old(slate), slate, e, choice)
      ensures Decided(old(slate))
      ensures slate.Keys == old(slate).Keys
      ensures forall i :: i in slate && (forall e :: e in Config ==> e.output != i) ==> slate[i] == old(slate)[i]
    {
      hide Ids, Flatten, Binned, Apply, Agree, Disjoint, Vote, Choose, Decided;
      ghost var was := slate;
      var indices := UpdateSources(accepted);
      ConnectedBounds(sources, numSources);
      ConnectedEmpty(sources, numSources);
      var c := Select(indices);
      choice := c;
      if !c.Keep? {
        Dispatch(c);
        EveryElementVoted(was, c);
      }
      EveryOutcome(was, indices, c);
    }

    /** Every source is as fresh as its own history of these cycles says. */
    ghost predicate Follows(cycles: seq<(Slate, int)>)
      requires Valid() && forall c :: c in cycles ==> c.0.Keys == slate.Keys
      reads this
    {
      forall i :: 0 <= i < numSources ==>
        sources[i] == RunSource(History(cycles, stamps[i]), anySequence, staleThreshold)
    }

    /** A cycle that finds the given values in the slate. */
    method NextCycle(start: Slate, accepted: int, ghost past: seq<(Slate, int)>)
      requires Valid() && Disjoint(multiset(Config))
      requires start.Keys == slate.Keys && forall c :: c in past ==> c.0.Keys == slate.Keys
      requires Follows(past)
      modifies this`sources, this`combinedConnected, this`slate
      ensures Valid() && slate.Keys == old(slate).Keys
      ensures Follows(past + [(start, accepted)])
      ensures combinedConnected <==> exists i :: 0 <= i < numSources && sources[i].connected
    {
      hide Ids, Flatten, Binned, Disjoint, Voted, Choose, Agree, StepSource, Sensible, RunSource, Known, Uniform;
      SameKeys(slate, start, Flatten(Groups));
      slate := start;
      forall i | 0 <= i < numSources
        ensures RunSource(History(past + [(start, accepted)], stamps[i]), anySequence, staleThreshold) ==
                StepSource(sources[i], start[stamps[i]], accepted, anySequence, staleThreshold)
      {
        HistoryNext(past, (start, accepted), stamps[i], anySequence, staleThreshold);
      }
      var _ := ValidateAndCombine(accepted);
    }

    /**
     * A run of cycles from the start, with whatever the rest of the system has left in the slate
     * before each: every source is as fresh as its own history says, and something is connected
     * exactly when some source updated in the last staleThreshold cycles.
     */
    method CombineAll(cycles: seq<(Slate, int)>)
      requires Valid() && Disjoint(multiset(Config))
      requires forall i :: 0 <= i < numSources ==> sources[i] == NewSource(staleThreshold)
      requires forall c :: c in cycles ==> c.0.Keys == slate.Keys
      modifies this`sources, this`combinedConnected, this`slate
      ensures Valid() && slate.Keys == old(slate).Keys
      ensures Follows(cycles)
      ensures cycles != [] ==> (combinedConnected <==>
        exists i :: 0 <= i < numSources && Recent(History(cycles, stamps[i]), anySequence, staleThreshold))
    {
      hide Ids, Flatten, Binned, Disjoint, Known, Uniform, Recent;
      for n := 0 to |cycles|
        invariant Valid() && slate.Keys == old(slate).Keys && Follows(cycles[..n])
        invariant n > 0 ==> (combinedConnected <==> exists i :: 0 <= i < numSources && sources[i].connected)
      {
        assert cycles[..n + 1] == cycles[..n] + [(cycles[n].0, cycles[n].1)];
        NextCycle(cycles[n].0, cycles[n].1, cycles[..n]);
      }
      assert cycles[..|cycles|] == cycles;
      if cycles != [] {
        forall i | 0 <= i < numSources
          ensures sources[i].connected <==> Recent(History(cycles, stamps[i]), anySequence, staleThreshold)
        {
          ConnectedWindow(History(cycles, stamps[i]), anySequence, staleThreshold);
        }
      }
    }

    /** The choice of the voting rule for this cycle. */
    method Select(indices: seq<nat>) returns (c: Choice)
      requires Valid() && |indices| <= numSources && forall i :: 0 <= i < |indices| ==> 1 <= indices[i] <= numSources
      ensures Sensible(c, numSources)
      ensures c == Choose(indices, downselect,
                          Agree(slate, Flatten(Groups), if numSources == 3 then 2 else 1, numSources, numSources))
    {
      hide Ids, Flatten, Binned, Apply, Agree;
      ghost var agree := Agree(slate, Flatten(Groups), if numSources == 3 then 2 else 1, numSources, numSources);
      if |indices| == 0 {
        c := Keep;
      } else if downselect {
        if |indices| == 3 {
          var bEqualsC := AllBinsEqual();
          c := Copy(if bEqualsC then 2 else 1);
        } else {
          c := Copy(indices[0]);
        }
      } else if |indices| == 1 {
        c := Copy(indices[0]);
      } else if |indices| == 2 {
        c := Larger(indices[0], indices[1]);
      } else {
        c := Middle;
      }
      SensibleChoice(indices, numSources, downselect, agree);
    }

    /** Every output, from the connected sources c and the input values before the cycle. */
    ghost predicate Decided(was: Slate)
      requires Valid() && Known(was, Flatten(Groups))
      reads this
    {
      var c := Connected(sources, numSources);
      var agree := Agree(was, Flatten(Groups), if numSources == 3 then 2 else 1, numSources, numSources);
      && (forall i :: 0 <= i < |c| ==> 1 <= c[i] <= numSources && sources[c[i] - 1].connected)
      && (forall k :: 1 <= k <= numSources && sources[k - 1].connected ==> k in c)
      && (forall i, j :: 0 <= i < j < |c| ==> c[i] < c[j])
      && (c != [] ==> forall e :: e in Config ==>
            && e.output in slate && |e.inputs| == numSources && (forall i :: i in e.inputs ==> i in was)
            && Outcome(slate[e.output], Values(was, e), c, downselect, agree))
    }

    /** From votes to outcomes. */
    lemma EveryOutcome(was: Slate, c: seq<nat>, choice: Choice)
      requires Valid() && c == Connected(sources, numSources) && Known(was, Flatten(Groups))
      requires choice == Choose(c, downselect,
                                Agree(was, Flatten(Groups), if numSources == 3 then 2 else 1, numSources, numSources))
      requires !choice.Keep? ==> forall e :: e in Config ==> e.output in slate && Voted(was, slate, e, choice)
      ensures choice.Keep? <==> c == []
      ensures Decided(was)
    {
      hide Flatten, Binned, Vote, Choose, Outcome, Connected, Agree, Known;
      var agree := Agree(was, Flatten(Groups), if numSources == 3 then 2 else 1, numSources, numSources);
      ConnectedBounds(sources, numSources);
      KeepsExactly(c, downselect, agree);
      if c != [] {
        forall e | e in Config
          ensures |e.inputs| == numSources && (forall i :: i in e.inputs ==> i in was)
          ensures Outcome(slate[e.output], Values(was, e), c, downselect, agree)
        {
          assert Voted(was, slate, e, choice);
          ConfiguredWidth(e);
          VotedValue(Values(was, e), c, downselect, agree);
        }
      }
    }

    lemma ConfiguredWidth(e: Element)
      requires Valid() && e in Config
      ensures |e.inputs| == numSources
    {
      hide Flatten, Binned;
      assert e in multiset(Flatten(Groups));
    }

    /** From the fold over bins to each configured element. */
    lemma EveryElementVoted(was: Slate, c: Choice)
      requires Valid() && Disjoint(multiset(Config)) && !c.Keep? && Sensible(c, numSources)
      requires Known(was, Flatten(Groups)) && slate == Apply(was, Flatten(Groups), c, numSources)
      ensures forall e :: e in Config ==> e.output in slate && Voted(was, slate, e, c)
      ensures forall i :: i in slate && (forall e :: e in Config ==> e.output != i) ==> slate[i] == was[i]
    {
      hide Flatten, Binned, Apply, Vote, Disjoint;
      var es := Flatten(Groups);
      DisjointIsSeparate(es);
      forall e | e in Config ensures e.output in slate && Voted(was, slate, e, c) {
        assert e in multiset(es);
        var j :| 0 <= j < |es| && es[j] == e;
        ApplyIsPerElement(was, es, c, numSources, j);
      }
      forall i | i in slate && (forall e :: e in Config ==> e.output != i) ensures slate[i] == was[i] {
        forall j | 0 <= j < |es| ensures es[j].output != i {
          assert es[j] in multiset(Config);
        }
        ApplyTouchesOutputsOnly(was, es, c, numSources, i);
      }
    }
  }

  /** The output of e holds the vote of its inputs. */
  ghost predicate Voted(was: Slate, now: Slate, e: Element, c: Choice)
    requires e.output in now
  {
    && (forall i :: i in e.inputs ==> i in was)
    && !c.Keep? && Sensible(c, |e.inputs|)
    && now[e.output] == Vote(c, Values(was, e))
  }

  lemma SensibleChoice(c: seq<nat>, n: nat, downselect: bool, bEqualsC: bool)
    requires |c| <= n <= 3 && forall i :: 0 <= i < |c| ==> 1 <= c[i] <= n
    ensures Sensible(Choose(c, downselect, bEqualsC), n)
  {
  }

  lemma {:induction false} ConnectedEmpty(sources: seq<Source>, n: nat)
    requires n <= |sources|
    ensures Connected(sources, n) != [] <==> exists i :: 0 <= i < n && sources[i].connected
  {
    if n > 0 { ConnectedEmpty(sources, n - 1); }
  }

  lemma ChoiceBounds(c: Choice, n: nat)
    requires Sensible(c, n)
    ensures c.Copy? ==> 1 <= c.source <= n
    ensures c.Larger? ==> 1 <= c.first <= n && 1 <= c.second <= n
    ensures c.Middle? ==> n == 3
  {
  }

  lemma SameKeys(a: Slate, b: Slate, es: seq<Element>)
    requires Known(a, es) && a.Keys == b.Keys
    ensures Known(b, es)
  {
    assert forall i :: i in a <==> i in b;
  }

  lemma NoElements(slate: Slate, c: Choice, n: nat)
    requires !c.Keep? && Sensible(c, n)
    ensures Flatten([]) == [] && Known(slate, []) && Uniform([], n) && Apply(slate, [], c, n) == slate
  {
  }

  lemma ApplyNone(slate: Slate, es: seq<Element>, c: Choice, n: nat)
    requires !c.Keep? && Sensible(c, n) && Known(slate, es) && Uniform(es, n)
    ensures Known(slate, es[..0]) && Uniform(es[..0], n) && Apply(slate, es[..0], c, n) == slate
  {
  }

  lemma ApplyNext(slate: Slate, es: seq<Element>, j: nat, c: Choice, n: nat)
    requires j < |es| && !c.Keep? && Sensible(c, n) && Known(slate, es) && Uniform(es, n)
    ensures Known(slate, es[..j]) && Uniform(es[..j], n) && Known(slate, es[..j + 1]) && Uniform(es[..j + 1], n)
    ensures var r := Apply(slate, es[..j], c, n);
      && Known(r, [es[j]])
      && Apply(slate, es[..j + 1], c, n) == r[es[j].output := Vote(c, Values(r, es[j]))]
  {
    hide Vote, Values;
    assert es[..j + 1][..j] == es[..j];
    var r := Apply(slate, es[..j], c, n);
    assert forall i :: i in slate <==> i in r;
  }

  lemma AgreeNone(slate: Slate)
    ensures Flatten([]) == [] && Known(slate, []) && Uniform([], 3) && Agree(slate, [], 2, 3, 3)
  {
  }

  lemma AgreeConcat(slate: Slate, a: seq<Element>, b: seq<Element>, n: nat)
    requires n == 3 && Known(slate, a) && Known(slate, b) && Known(slate, a + b)
    requires Uniform(a, n) && Uniform(b, n) && Uniform(a + b, n)
    ensures Agree(slate, a + b, 2, 3, n) <==> Agree(slate, a, 2, 3, n) && Agree(slate, b, 2, 3, n)
  {
    hide Values;
    var c := a + b;
    assert forall j :: 0 <= j < |a| ==> c[j] == a[j];
    assert forall j :: 0 <= j < |b| ==> c[|a| + j] == b[j];
    if Agree(slate, c, 2, 3, n) {
      forall j | 0 <= j < |b| ensures Values(slate, b[j])[1] == Values(slate, b[j])[2] {
        assert Values(slate, c[|a| + j])[1] == Values(slate, c[|a| + j])[2];
      }
    }
  }

  lemma ConnectedStart(sources: seq<Source>)
    ensures Connected(sources, 0) == []
  {
  }

  lemma ConnectedNext(sources: seq<Source>, n: nat)
    requires n < |sources|
    ensures Connected(sources, n + 1) ==
            if sources[n].connected then Connected(sources, n) + [n + 1] else Connected(sources, n)
  {
  }

  lemma {:induction false} ConnectedPrefix(a: seq<Source>, b: seq<Source>, n: nat)
    requires n <= |a| && n <= |b| && forall i :: 0 <= i < n ==> a[i] == b[i]
    ensures Connected(a, n) == Connected(b, n)
  {
    if n > 0 { ConnectedPrefix(a, b, n - 1); }
  }
}
