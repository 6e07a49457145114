/** Frame-to-frame association of one feature modality (points or lines),
    written once for both: the per-entry acceptance loop over the sorted
    k=2 match list, followed by the sweep that gives every still-unassigned
    current feature a fresh track ID from the modality's monotone counter. */
module Association {
  import opened Numbers
  import opened Features

  /** What distinguishes the two modalities: whether the reverse match list
      is consulted (`mutual`), the best reverse match of every current
      feature (`back`), the ratio and geometric test of one entry
      (`accepts`, on the previous and the current geometry), and what a
      matched previous feature records of its counterpart (`observe`). */
  datatype Matcher<!G, O> = Matcher(
    mutual: bool,
    back: seq<int>,
    accepts: (KnnMatch, G, G) -> bool,
    observe: G -> O)

  /** The association state: previous and current features, the
      correspondence set (indices of previous features, in insertion
      order) and the modality's ID counter. */
  datatype Assoc<G, O> = Assoc(
    prev: seq<Feature<G, O>>,
    curr: seq<Feature<G, O>>,
    matched: seq<nat>,
    counter: int)

  predicate EntryFits<G, O>(e: KnnMatch, nPrev: int, nCurr: int, m: Matcher<G, O>)
  {
    0 <= e.query < nPrev && 0 <= e.train < nCurr && (m.mutual ==> |m.back| == nCurr)
  }

  /** A match list as the matcher delivers it after sorting by query
      index: indices address the two frames, every previous feature appears
      at most once and in increasing order, and the reverse list holds one
      entry per current feature. */
  predicate Fits<G, O>(es: seq<KnnMatch>, nPrev: int, nCurr: int, m: Matcher<G, O>)
  {
    && (forall i :: 0 <= i < |es| ==> 0 <= es[i].query < nPrev && 0 <= es[i].train < nCurr)
    && (forall i, j :: 0 <= i < j < |es| ==> es[i].query < es[j].query)
    && (m.mutual ==> |m.back| == nCurr)
  }

  /** An entry is accepted when it is a mutual best match (or mutual
      checking is off) and it passes the modality's ratio and geometric
      test. */
  predicate Accepted<G, O>(e: KnnMatch, prev: seq<Feature<G, O>>, curr: seq<Feature<G, O>>, m: Matcher<G, O>)
    requires EntryFits(e, |prev|, |curr|, m)
  {
    var rl := if m.mutual then m.back[e.train] else e.query;
    e.query == rl && m.accepts(e, prev[e.query].geom, curr[e.train].geom)
  }

  /** One iteration of the entry loop. */
  function Step<G, O>(s: Assoc<G, O>, e: KnnMatch, m: Matcher<G, O>): (r: Assoc<G, O>)
    requires EntryFits(e, |s.prev|, |s.curr|, m)
    ensures SameGeometry(r.prev, s.prev) && IdsOnlyDiffer(r.curr, s.curr)
    ensures forall i :: 0 <= i < |s.prev| ==> r.prev[i].idx == s.prev[i].idx
  {
    var q := e.query;
    var t := e.train;
    if Accepted(e, s.prev, s.curr, m) then
      Assoc(s.prev[q := s.prev[q].(inlier := true, obs := m.observe(s.curr[t].geom))],
            s.curr[t := s.curr[t].(idx := s.prev[q].idx)],
            s.matched + [q],
            s.counter)
    else
      Assoc(s.prev, s.curr[t := s.curr[t].(idx := s.counter)], s.matched, s.counter + 1)
  }

  /** The previous-feature indices of the accepted entries, in list order. */
  function AcceptedQueries<G, O>(es: seq<KnnMatch>, prev: seq<Feature<G, O>>, curr: seq<Feature<G, O>>, m: Matcher<G, O>): seq<nat>
    requires Fits(es, |prev|, |curr|, m)
  {
    if |es| == 0 then []
    else
      (if Accepted(es[0], prev, curr, m) then [es[0].query as nat] else [])
      + AcceptedQueries(es[1..], prev, curr, m)
  }

  /** The number of rejected entries. */
  function RejectedCount<G, O>(es: seq<KnnMatch>, prev: seq<Feature<G, O>>, curr: seq<Feature<G, O>>, m: Matcher<G, O>): nat
    requires Fits(es, |prev|, |curr|, m)
  {
    if |es| == 0 then 0
    else
      (if Accepted(es[0], prev, curr, m) then 0 else 1) + RejectedCount(es[1..], prev, curr, m)
  }

  /** Verdicts read only the geometry, which the loop never changes. */
  lemma {:induction false} VerdictsReadGeometryOnly<G, O>(
    es: seq<KnnMatch>, p: seq<Feature<G, O>>, c: seq<Feature<G, O>>,
    p': seq<Feature<G, O>>, c': seq<Feature<G, O>>, m: Matcher<G, O>)
    requires Fits(es, |p|, |c|, m) && SameGeometry(p, p') && SameGeometry(c, c')
    ensures AcceptedQueries(es, p, c, m) == AcceptedQueries(es, p', c', m)
    ensures RejectedCount(es, p, c, m) == RejectedCount(es, p', c', m)
    ensures forall j :: 0 <= j < |es| ==> Accepted(es[j], p, c, m) == Accepted(es[j], p', c', m)
    decreases |es|
  {
    if |es| > 0 {
      VerdictsReadGeometryOnly(es[1..], p, c, p', c', m);
      forall j | 0 <= j < |es|
        ensures Accepted(es[j], p, c, m) == Accepted(es[j], p', c', m)
      {
        assert p[es[j].query].geom == p'[es[j].query].geom;
        assert c[es[j].train].geom == c'[es[j].train].geom;
      }
    }
  }

  /** The entry loop over the whole match list. */
  function Run<G, O>(s: Assoc<G, O>, es: seq<KnnMatch>, m: Matcher<G, O>): (r: Assoc<G, O>)
    requires Fits(es, |s.prev|, |s.curr|, m)
    ensures SameGeometry(r.prev, s.prev) && SameGeometry(r.curr, s.curr) && IdsOnlyDiffer(r.curr, s.curr)
    ensures forall i :: 0 <= i < |s.prev| ==> r.prev[i].idx == s.prev[i].idx
    ensures r.matched == s.matched + AcceptedQueries(es, s.prev, s.curr, m)
    ensures r.counter == s.counter + RejectedCount(es, s.prev, s.curr, m)
    decreases |es|
  {
    if |es| == 0 then s
    else
      var s' := Step(s, es[0], m);
      VerdictsReadGeometryOnly(es, s.prev, s.curr, s'.prev, s'.curr, m);
      VerdictsReadGeometryOnly(es[1..], s.prev, s.curr, s'.prev, s'.curr, m);
      Run(s', es[1..], m)
  }

  /** Number of unassigned features, counted from the front. */
  function UnassignedCount<G, O>(fs: seq<Feature<G, O>>): (n: nat)
    ensures n <= |fs|
    decreases |fs|
  {
    if |fs| == 0 then 0
    else UnassignedCount(fs[..|fs| - 1]) + (if fs[|fs| - 1].idx == Unassigned then 1 else 0)
  }

  /** The sweep after the entry loop: in order of position, every feature
      still unassigned takes the counter's value and the counter advances.
      The i-th unassigned feature (counting from 0) receives `counter + i`,
      so the fresh IDs of one sweep strictly increase with position. */
  function Sweep<G, O>(fs: seq<Feature<G, O>>, counter: int): (r: (seq<Feature<G, O>>, int))
    ensures |r.0| == |fs|
    ensures r.1 == counter + UnassignedCount(fs)
    ensures forall i :: 0 <= i < |fs| ==>
      r.0[i] == (if fs[i].idx == Unassigned
                 then fs[i].(idx := counter + UnassignedCount(fs[..i]))
                 else fs[i])
    ensures 0 <= counter ==> NoneUnassigned(r.0)
    decreases |fs|
  {
    if |fs| == 0 then ([], counter)
    else
      var front := fs[..|fs| - 1];
      var last := fs[|fs| - 1];
      var (done, next) := Sweep(front, counter);
      assert forall i :: 0 <= i < |front| ==> front[..i] == fs[..i];
      assert fs[..|fs| - 1] == front;
      if last.idx == Unassigned then (done + [last.(idx := next)], next + 1)
      else (done + [last], next)
  }

  lemma {:induction false} UnassignedPrefixGrows<G, O>(fs: seq<Feature<G, O>>, i: nat, j: nat)
    requires i < j <= |fs| && fs[i].idx == Unassigned
    ensures UnassignedCount(fs[..i]) < UnassignedCount(fs[..j])
    decreases j - i
  {
    assert fs[..i + 1][..i] == fs[..i];
    if j > i + 1 {
      UnassignedPrefixGrows(fs, i, j - 1);
      assert fs[..j][..j - 1] == fs[..j - 1];
    }
  }

  /** The sweep keeps the track-ID discipline and leaves no feature
      unassigned: its fresh IDs lie in [counter, counter') and are
      pairwise distinct. */
  lemma SweepKeepsTrackIds<G, O>(fs: seq<Feature<G, O>>, counter: int)
    requires TrackIds(fs, counter)
    ensures TrackIds(Sweep(fs, counter).0, Sweep(fs, counter).1)
    ensures NoneUnassigned(Sweep(fs, counter).0)
    ensures counter <= Sweep(fs, counter).1
    ensures forall i :: 0 <= i < |fs| && fs[i].idx == Unassigned ==>
      counter <= Sweep(fs, counter).0[i].idx < Sweep(fs, counter).1
  {
    var (out, c') := Sweep(fs, counter);
    assert fs[..|fs|] == fs;
    forall i | 0 <= i < |fs| && fs[i].idx == Unassigned
      ensures counter <= out[i].idx < c'
    {
      UnassignedPrefixGrows(fs, i, |fs|);
    }
    forall i, j | 0 <= i < |fs| && 0 <= j < |fs| && i != j
      ensures out[i].idx != out[j].idx
    {
      if fs[i].idx == Unassigned && fs[j].idx == Unassigned {
        if i < j {
          UnassignedPrefixGrows(fs, i, j);
        } else {
          UnassignedPrefixGrows(fs, j, i);
        }
      }
    }
  }

  /** Association of one modality: the entry loop followed by the sweep.
      The correspondence set is exactly the accepted entries' previous
      features in list order; every accepted entry's previous feature is an
      inlier observing its current feature, and no other previous feature
      changes; previous IDs are kept and current features change only
      their IDs; every current feature ends with the ID its last targeting
      entry decides (see IdAssigned); the counter grows by at least the
      number of rejected entries, and when it starts non-negative no
      current feature is left unassigned. */
  function Associate<G, O>(prev: seq<Feature<G, O>>, curr: seq<Feature<G, O>>, counter: int,
                           es: seq<KnnMatch>, m: Matcher<G, O>): (r: Assoc<G, O>)
    requires Fits(es, |prev|, |curr|, m)
    ensures SameGeometry(r.prev, prev) && SameGeometry(r.curr, curr)
    ensures IdsOnlyDiffer(r.curr, curr)
    ensures forall i :: 0 <= i < |prev| ==> r.prev[i].idx == prev[i].idx
    ensures r.matched == AcceptedQueries(es, prev, curr, m)
    ensures Observed(es, prev, curr, m, r.prev)
    ensures forall i :: 0 <= i < |prev| && i !in r.matched ==> r.prev[i] == prev[i]
    ensures IdsAssigned(es, prev, curr, m, counter, r.curr, r.counter)
    ensures counter + RejectedCount(es, prev, curr, m) <= r.counter
    ensures 0 <= counter ==> NoneUnassigned(r.curr)
  {
    var s0 := Assoc(prev, curr, [], counter);
    var s := Run(s0, es, m);
    var swept := Sweep(s.curr, s.counter);
    RunMarksAccepted(s0, es, m);
    RunLeavesUnmatchedAlone(s0, es, m);
    RunIds(s0, es, m);
    SweepDecidesIds(es, prev, curr, m, counter, s.curr, s.counter);
    Assoc(s.prev, swept.0, s.matched, swept.1)
  }

  /** Every accepted entry's previous feature is flagged inlier and records
      what it observes of the entry's current feature. */
  ghost predicate Observed<G, O>(es: seq<KnnMatch>, prev: seq<Feature<G, O>>, curr: seq<Feature<G, O>>, m: Matcher<G, O>,
                           out: seq<Feature<G, O>>)
    requires Fits(es, |prev|, |curr|, m)
  {
    && |out| == |prev|
    && forall j :: 0 <= j < |es| && Accepted(es[j], prev, curr, m) ==>
         out[es[j].query].inlier && out[es[j].query].obs == m.observe(curr[es[j].train].geom)
  }

  // ---------------------------------------------------------------------
  // Which entry decides a current feature's ID

  /** The position of the last entry that targets current feature `t`, or
      -1 when none does. Each entry overwrites its target's ID, so this
      entry's verdict decides the ID the loop leaves. */
  function LastTarget(es: seq<KnnMatch>, t: int): (j: int)
    ensures -1 <= j < |es|
    ensures 0 <= j ==> es[j].train == t
    ensures forall k :: j < k < |es| ==> es[k].train != t
    decreases |es|
  {
    if |es| == 0 then -1
    else
      var k := LastTarget(es[1..], t);
      assert forall i :: 1 <= i < |es| ==> es[i] == es[1..][i - 1];
      if 0 <= k then k + 1
      else if es[0].train == t then 0
      else -1
  }

  /** The ID the entry loop leaves on current feature `t`: the previous
      feature's ID when the deciding entry is accepted, an ID drawn from
      [counter, counter') when it is rejected, and the feature's own ID when
      no entry targets it. */
  predicate LoopId<G, O>(es: seq<KnnMatch>, prev: seq<Feature<G, O>>, curr: seq<Feature<G, O>>, m: Matcher<G, O>,
                         counter: int, t: int, id: int, counter': int)
    requires Fits(es, |prev|, |curr|, m) && 0 <= t < |curr|
  {
    var j := LastTarget(es, t);
    if j < 0 then id == curr[t].idx
    else if Accepted(es[j], prev, curr, m) then id == prev[es[j].query].idx
    else counter <= id < counter'
  }

  /** The ID association leaves on current feature `t`: the previous
      feature's ID when the deciding entry is accepted and that ID is
      assigned; the feature's own ID when no entry targets it and it has
      one; otherwise a fresh ID from [counter, counter'), handed out by the
      rejection or by the sweep. */
  predicate IdAssigned<G, O>(es: seq<KnnMatch>, prev: seq<Feature<G, O>>, curr: seq<Feature<G, O>>, m: Matcher<G, O>,
                             counter: int, t: int, id: int, counter': int)
    requires Fits(es, |prev|, |curr|, m) && 0 <= t < |curr|
  {
    var j := LastTarget(es, t);
    if 0 <= j && Accepted(es[j], prev, curr, m) && prev[es[j].query].idx != Unassigned then
      id == prev[es[j].query].idx
    else if j < 0 && curr[t].idx != Unassigned then id == curr[t].idx
    else counter <= id < counter'
  }

  predicate IdsAssigned<G, O>(es: seq<KnnMatch>, prev: seq<Feature<G, O>>, curr: seq<Feature<G, O>>, m: Matcher<G, O>,
                              counter: int, out: seq<Feature<G, O>>, counter': int)
    requires Fits(es, |prev|, |curr|, m)
  {
    && |out| == |curr|
    && forall t :: 0 <= t < |curr| ==> IdAssigned(es, prev, curr, m, counter, t, out[t].idx, counter')
  }

  /** The entry loop leaves every current feature the ID its deciding entry gives it. */
  lemma {:induction false} RunIds<G, O>(s: Assoc<G, O>, es: seq<KnnMatch>, m: Matcher<G, O>)
    requires Fits(es, |s.prev|, |s.curr|, m)
    ensures forall t :: 0 <= t < |s.curr| ==>
      LoopId(es, s.prev, s.curr, m, s.counter, t, Run(s, es, m).curr[t].idx, Run(s, es, m).counter)
    decreases |es|
  {
    if |es| > 0 {
      var s' := Step(s, es[0], m);
      var r := Run(s', es[1..], m);
      assert Run(s, es, m) == r;
      VerdictsReadGeometryOnly(es, s.prev, s.curr, s'.prev, s'.curr, m);
      RunIds(s', es[1..], m);
      assert |s'.curr| == |s.curr| && s'.counter <= r.counter;
      forall t | 0 <= t < |s.curr|
        ensures LoopId(es, s.prev, s.curr, m, s.counter, t, r.curr[t].idx, r.counter)
      {
        var k := LastTarget(es[1..], t);
        assert LoopId(es[1..], s'.prev, s'.curr, m, s'.counter, t, r.curr[t].idx, r.counter);
        if 0 <= k {
          assert es[1..][k] == es[k + 1];
          assert Accepted(es[k + 1], s'.prev, s'.curr, m) == Accepted(es[k + 1], s.prev, s.curr, m);
        }
      }
    }
  }

  /** The sweep turns the loop's IDs into the ones IdAssigned describes. */
  lemma SweepDecidesIds<G, O>(es: seq<KnnMatch>, prev: seq<Feature<G, O>>, curr: seq<Feature<G, O>>, m: Matcher<G, O>,
                              counter: int, fs: seq<Feature<G, O>>, counter': int)
    requires Fits(es, |prev|, |curr|, m) && |fs| == |curr| && counter <= counter'
    requires forall t :: 0 <= t < |curr| ==> LoopId(es, prev, curr, m, counter, t, fs[t].idx, counter')
    ensures IdsAssigned(es, prev, curr, m, counter, Sweep(fs, counter').0, Sweep(fs, counter').1)
  {
    var (out, c') := Sweep(fs, counter');
    assert fs[..|fs|] == fs;
    forall t | 0 <= t < |curr|
      ensures IdAssigned(es, prev, curr, m, counter, t, out[t].idx, c')
    {
      assert LoopId(es, prev, curr, m, counter, t, fs[t].idx, counter');
      if fs[t].idx == Unassigned {
        UnassignedPrefixGrows(fs, t, |fs|);
      }
    }
  }

  // ---------------------------------------------------------------------
  // The correspondence set

  lemma {:induction false} AcceptedQueriesAbove<G, O>(
    es: seq<KnnMatch>, prev: seq<Feature<G, O>>, curr: seq<Feature<G, O>>, m: Matcher<G, O>, b: int)
    requires Fits(es, |prev|, |curr|, m)
    requires forall j :: 0 <= j < |es| ==> b < es[j].query
    ensures forall k :: 0 <= k < |AcceptedQueries(es, prev, curr, m)| ==> b < AcceptedQueries(es, prev, curr, m)[k]
    decreases |es|
  {
    if |es| > 0 {
      AcceptedQueriesAbove(es[1..], prev, curr, m, b);
    }
  }

  /** The correspondence set lists previous features in strictly increasing
      index order, so it refers to each of them at most once. */
  lemma {:induction false} AcceptedQueriesIncreasing<G, O>(
    es: seq<KnnMatch>, prev: seq<Feature<G, O>>, curr: seq<Feature<G, O>>, m: Matcher<G, O>)
    requires Fits(es, |prev|, |curr|, m)
    ensures var qs := AcceptedQueries(es, prev, curr, m);
      IndicesBelow(qs, |prev|) && forall k, l :: 0 <= k < l < |qs| ==> qs[k] < qs[l]
    ensures Distinct(AcceptedQueries(es, prev, curr, m))
    decreases |es|
  {
    var qs := AcceptedQueries(es, prev, curr, m);
    if |es| > 0 {
      var tail := AcceptedQueries(es[1..], prev, curr, m);
      AcceptedQueriesIncreasing(es[1..], prev, curr, m);
      AcceptedQueriesAbove(es[1..], prev, curr, m, es[0].query);
      if Accepted(es[0], prev, curr, m) {
        assert qs == [es[0].query as nat] + tail;
        forall k, l | 0 <= k < l < |qs|
          ensures qs[k] < qs[l]
        {
          if k > 0 {
            assert qs[k] == tail[k - 1] && qs[l] == tail[l - 1];
          } else {
            assert qs[l] == tail[l - 1];
          }
        }
      } else {
        assert qs == tail;
      }
    }
    forall k, l | 0 <= k < |qs| && 0 <= l < |qs| && k != l
      ensures qs[k] != qs[l]
    {
      if k < l {
        assert qs[k] < qs[l];
      } else {
        assert qs[l] < qs[k];
      }
    }
  }

  /** The loop touches only the previous features it accepts. */
  lemma {:induction false} RunLeavesUnmatchedAlone<G, O>(s: Assoc<G, O>, es: seq<KnnMatch>, m: Matcher<G, O>)
    requires Fits(es, |s.prev|, |s.curr|, m)
    ensures forall i :: 0 <= i < |s.prev| && i !in AcceptedQueries(es, s.prev, s.curr, m) ==>
      Run(s, es, m).prev[i] == s.prev[i]
    decreases |es|
  {
    if |es| > 0 {
      var s' := Step(s, es[0], m);
      VerdictsReadGeometryOnly(es[1..], s.prev, s.curr, s'.prev, s'.curr, m);
      RunLeavesUnmatchedAlone(s', es[1..], m);
      forall i | 0 <= i < |s.prev| && i !in AcceptedQueries(es, s.prev, s.curr, m)
        ensures Run(s, es, m).prev[i] == s.prev[i]
      {
        assert i !in AcceptedQueries(es[1..], s.prev, s.curr, m);
        if Accepted(es[0], s.prev, s.curr, m) {
          assert i != es[0].query;
        }
      }
    }
  }

  /** An accepted entry marks its previous feature as an inlier and records
      the current feature's geometry as its observation. */
  lemma {:induction false} RunMarksAcceptedAt<G, O>(s: Assoc<G, O>, es: seq<KnnMatch>, m: Matcher<G, O>, j: nat)
    requires Fits(es, |s.prev|, |s.curr|, m)
    requires j < |es| && Accepted(es[j], s.prev, s.curr, m)
    ensures Run(s, es, m).prev[es[j].query].inlier
    ensures Run(s, es, m).prev[es[j].query].obs == m.observe(s.curr[es[j].train].geom)
    decreases |es|
  {
    var s' := Step(s, es[0], m);
    if j == 0 {
      var q := es[0].query;
      RunLeavesUnmatchedAlone(s', es[1..], m);
      AcceptedQueriesAbove(es[1..], s'.prev, s'.curr, m, q);
      assert q !in AcceptedQueries(es[1..], s'.prev, s'.curr, m);
    } else {
      VerdictsReadGeometryOnly(es, s.prev, s.curr, s'.prev, s'.curr, m);
      assert es[j] == es[1..][j - 1];
      RunMarksAcceptedAt(s', es[1..], m, j - 1);
    }
  }

  lemma RunMarksAccepted<G, O>(s: Assoc<G, O>, es: seq<KnnMatch>, m: Matcher<G, O>)
    requires Fits(es, |s.prev|, |s.curr|, m)
    ensures forall j :: 0 <= j < |es| && Accepted(es[j], s.prev, s.curr, m) ==>
      && Run(s, es, m).prev[es[j].query].inlier
      && Run(s, es, m).prev[es[j].query].obs == m.observe(s.curr[es[j].train].geom)
  {
    forall j | 0 <= j < |es| && Accepted(es[j], s.prev, s.curr, m)
      ensures Run(s, es, m).prev[es[j].query].inlier
      ensures Run(s, es, m).prev[es[j].query].obs == m.observe(s.curr[es[j].train].geom)
    {
      RunMarksAcceptedAt(s, es, m, j);
    }
  }

  /** After association every feature of the correspondence set is flagged
      inlier, so the set's flags are all true. */
  lemma AssociateFlagsMatchedInliers<G, O>(prev: seq<Feature<G, O>>, curr: seq<Feature<G, O>>, counter: int,
                                         es: seq<KnnMatch>, m: Matcher<G, O>)
    requires Fits(es, |prev|, |curr|, m)
    ensures var r := Associate(prev, curr, counter, es, m);
      IndicesBelow(r.matched, |r.prev|) && Distinct(r.matched) && AllTrue(InlierFlags(r.prev, r.matched))
  {
    var s0 := Assoc(prev, curr, [], counter);
    var r := Associate(prev, curr, counter, es, m);
    AcceptedQueriesIncreasing(es, prev, curr, m);
    RunFlagsMatched(s0, es, m);
  }

  /** Every member of the correspondence set is flagged inlier after the loop. */
  lemma {:induction false} RunFlagsMatched<G, O>(s: Assoc<G, O>, es: seq<KnnMatch>, m: Matcher<G, O>)
    requires Fits(es, |s.prev|, |s.curr|, m)
    ensures var qs := AcceptedQueries(es, s.prev, s.curr, m);
      IndicesBelow(qs, |s.prev|) && forall k :: 0 <= k < |qs| ==> Run(s, es, m).prev[qs[k]].inlier
    decreases |es|
  {
    AcceptedQueriesIncreasing(es, s.prev, s.curr, m);
    if |es| > 0 {
      var s' := Step(s, es[0], m);
      var r := Run(s', es[1..], m);
      assert Run(s, es, m) == r;
      VerdictsReadGeometryOnly(es[1..], s.prev, s.curr, s'.prev, s'.curr, m);
      var tail := AcceptedQueries(es[1..], s'.prev, s'.curr, m);
      RunFlagsMatched(s', es[1..], m);
      assert forall k :: 0 <= k < |tail| ==> r.prev[tail[k]].inlier;
      var qs := AcceptedQueries(es, s.prev, s.curr, m);
      if Accepted(es[0], s.prev, s.curr, m) {
        assert qs == [es[0].query as nat] + tail;
        RunMarksAcceptedAt(s, es, m, 0);
        assert r.prev[es[0].query].inlier;
      } else {
        assert qs == tail;
      }
    }
  }

  /** With mutual checking on, an accepted entry is its current feature's
      best reverse match, so no two accepted entries share a current
      feature. */
  lemma MutualAcceptedDistinctTargets<G, O>(
    es: seq<KnnMatch>, prev: seq<Feature<G, O>>, curr: seq<Feature<G, O>>, m: Matcher<G, O>)
    requires Fits(es, |prev|, |curr|, m) && m.mutual
    ensures forall j :: 0 <= j < |es| && Accepted(es[j], prev, curr, m) ==> m.back[es[j].train] == es[j].query
    ensures forall i, j :: 0 <= i < j < |es| && Accepted(es[i], prev, curr, m) && Accepted(es[j], prev, curr, m) ==>
      es[i].train != es[j].train
  {
  }

  // ---------------------------------------------------------------------
  // Track IDs

  /** No current feature yet carries the assigned ID of a previous feature
      at index `b` or beyond: those have not been visited by the loop. */
  ghost predicate NotYetInherited<G, O>(prev: seq<Feature<G, O>>, curr: seq<Feature<G, O>>, b: int)
  {
    forall t, q :: 0 <= t < |curr| && 0 <= q < |prev| && b <= q && prev[q].idx != Unassigned ==> curr[t].idx != prev[q].idx
  }

  lemma StepKeepsTrackIds<G, O>(s: Assoc<G, O>, e: KnnMatch, m: Matcher<G, O>, c0: int, b: int)
    requires EntryFits(e, |s.prev|, |s.curr|, m)
    requires TrackIds(s.prev, c0) && c0 <= s.counter && TrackIds(s.curr, s.counter)
    requires b <= e.query && NotYetInherited(s.prev, s.curr, b)
    ensures var r := Step(s, e, m);
      TrackIds(r.prev, c0) && c0 <= r.counter && TrackIds(r.curr, r.counter) && NotYetInherited(r.prev, r.curr, e.query + 1)
  {
    var r := Step(s, e, m);
    var q, t := e.query, e.train;
    if Accepted(e, s.prev, s.curr, m) {
      var v := s.prev[q].idx;
      forall i, j | 0 <= i < |r.curr| && 0 <= j < |r.curr| && i != j && r.curr[i].idx != Unassigned
        ensures r.curr[i].idx != r.curr[j].idx
      {
        if i == t {
          assert s.curr[j].idx != v;
        } else if j == t && v != Unassigned {
          assert s.curr[i].idx != v;
        }
      }
      forall t', q' | 0 <= t' < |r.curr| && 0 <= q' < |r.prev| && e.query + 1 <= q' && r.prev[q'].idx != Unassigned
        ensures r.curr[t'].idx != r.prev[q'].idx
      {
        assert r.prev[q'].idx == s.prev[q'].idx;
        if t' == t && v != Unassigned {
          assert q != q';
        }
      }
    } else {
      forall t', q' | 0 <= t' < |r.curr| && 0 <= q' < |r.prev| && e.query + 1 <= q' && r.prev[q'].idx != Unassigned
        ensures r.curr[t'].idx != r.prev[q'].idx
      {
        assert r.prev[q'].idx == s.prev[q'].idx;
      }
    }
  }

  lemma {:induction false} RunKeepsTrackIds<G, O>(s: Assoc<G, O>, es: seq<KnnMatch>, m: Matcher<G, O>, c0: int, b: int)
    requires Fits(es, |s.prev|, |s.curr|, m)
    requires TrackIds(s.prev, c0) && c0 <= s.counter && TrackIds(s.curr, s.counter)
    requires forall j :: 0 <= j < |es| ==> b <= es[j].query
    requires NotYetInherited(s.prev, s.curr, b)
    ensures TrackIds(Run(s, es, m).curr, Run(s, es, m).counter)
    decreases |es|
  {
    if |es| > 0 {
      var s' := Step(s, es[0], m);
      StepKeepsTrackIds(s, es[0], m, c0, b);
      RunKeepsTrackIds(s', es[1..], m, c0, es[0].query + 1);
    }
  }

  /** Association preserves the track-ID discipline from the previous frame
      to the current one: if the previous frame's IDs are distinct and
      below the counter and the current frame is fresh, then afterwards
      every current feature has an ID, the IDs are pairwise distinct and
      all lie below the advanced counter. No ID is handed out twice. */
  lemma AssociateKeepsTrackIds<G, O>(prev: seq<Feature<G, O>>, curr: seq<Feature<G, O>>, counter: int,
                                   es: seq<KnnMatch>, m: Matcher<G, O>)
    requires Fits(es, |prev|, |curr|, m)
    requires TrackIds(prev, counter) && AllUnassigned(curr)
    ensures var r := Associate(prev, curr, counter, es, m);
      TrackIds(r.curr, r.counter) && NoneUnassigned(r.curr) && counter <= r.counter
  {
    var s0 := Assoc(prev, curr, [], counter);
    RunKeepsTrackIds(s0, es, m, counter, 0);
    var s := Run(s0, es, m);
    SweepKeepsTrackIds(s.curr, s.counter);
  }

  // ---------------------------------------------------------------------
  // Counter growth

  /** Some entry of the match list targets current feature `t`. */
  predicate Targeted(es: seq<KnnMatch>, t: int)
  {
    exists j :: 0 <= j < |es| && es[j].train == t
  }

  /** Number of current features among the first `n` that no entry targets. */
  function Untargeted(es: seq<KnnMatch>, n: nat): nat
  {
    if n == 0 then 0 else Untargeted(es, n - 1) + (if Targeted(es, n - 1) then 0 else 1)
  }

  /** The entry loop leaves current feature `t` without an ID, so the sweep
      numbers it: no entry targets it and it has none, or its deciding
      entry is accepted and hands over an unassigned ID. */
  predicate LeftForSweep<G, O>(es: seq<KnnMatch>, prev: seq<Feature<G, O>>, curr: seq<Feature<G, O>>,
                               m: Matcher<G, O>, t: int)
    requires Fits(es, |prev|, |curr|, m) && 0 <= t < |curr|
  {
    var j := LastTarget(es, t);
    if j < 0 then curr[t].idx == Unassigned
    else Accepted(es[j], prev, curr, m) && prev[es[j].query].idx == Unassigned
  }

  /** Number of current features among the first `n` left for the sweep. */
  function SweptCount<G, O>(es: seq<KnnMatch>, prev: seq<Feature<G, O>>, curr: seq<Feature<G, O>>,
                            m: Matcher<G, O>, n: nat): nat
    requires Fits(es, |prev|, |curr|, m) && n <= |curr|
  {
    if n == 0 then 0
    else SweptCount(es, prev, curr, m, n - 1) + (if LeftForSweep(es, prev, curr, m, n - 1) then 1 else 0)
  }

  lemma {:induction false} UnassignedAreSwept<G, O>(es: seq<KnnMatch>, prev: seq<Feature<G, O>>, curr: seq<Feature<G, O>>,
                                                    m: Matcher<G, O>, fs: seq<Feature<G, O>>, n: nat)
    requires Fits(es, |prev|, |curr|, m) && |fs| == |curr| && n <= |curr|
    requires forall t :: 0 <= t < |curr| ==> (fs[t].idx == Unassigned <==> LeftForSweep(es, prev, curr, m, t))
    ensures UnassignedCount(fs[..n]) == SweptCount(es, prev, curr, m, n)
  {
    if n > 0 {
      assert fs[..n][..n - 1] == fs[..n - 1];
      UnassignedAreSwept(es, prev, curr, m, fs, n - 1);
    }
  }

  lemma {:induction false} SweptAreUntargeted<G, O>(es: seq<KnnMatch>, prev: seq<Feature<G, O>>, curr: seq<Feature<G, O>>,
                                                    m: Matcher<G, O>, n: nat)
    requires Fits(es, |prev|, |curr|, m) && n <= |curr|
    requires AllUnassigned(curr) && forall q :: 0 <= q < |prev| ==> prev[q].idx != Unassigned
    ensures SweptCount(es, prev, curr, m, n) == Untargeted(es, n)
  {
    if n > 0 {
      SweptAreUntargeted(es, prev, curr, m, n - 1);
      var t := n - 1;
      if Targeted(es, t) {
        var j :| 0 <= j < |es| && es[j].train == t;
        assert 0 <= LastTarget(es, t);
      }
    }
  }

  /** The counter advances by exactly one per rejected entry plus one per
      current feature the loop leaves for the sweep. For a fresh current
      frame whose previous frame carries only assigned IDs, those are the
      current features no entry targets. */
  lemma AssociateCounterGrowth<G, O>(prev: seq<Feature<G, O>>, curr: seq<Feature<G, O>>, counter: int,
                                   es: seq<KnnMatch>, m: Matcher<G, O>)
    requires Fits(es, |prev|, |curr|, m) && 0 <= counter
    ensures Associate(prev, curr, counter, es, m).counter
         == counter + RejectedCount(es, prev, curr, m) + SweptCount(es, prev, curr, m, |curr|)
    ensures AllUnassigned(curr) && (forall q :: 0 <= q < |prev| ==> prev[q].idx != Unassigned) ==>
      SweptCount(es, prev, curr, m, |curr|) == Untargeted(es, |curr|)
  {
    var s0 := Assoc(prev, curr, [], counter);
    var s := Run(s0, es, m);
    RunIds(s0, es, m);
    forall t | 0 <= t < |curr|
      ensures s.curr[t].idx == Unassigned <==> LeftForSweep(es, prev, curr, m, t)
    {
      assert LoopId(es, prev, curr, m, counter, t, s.curr[t].idx, s.counter);
    }
    UnassignedAreSwept(es, prev, curr, m, s.curr, |curr|);
    assert s.curr[..|s.curr|] == s.curr;
    if AllUnassigned(curr) && (forall q :: 0 <= q < |prev| ==> prev[q].idx != Unassigned) {
      SweptAreUntargeted(es, prev, curr, m, |curr|);
    }
  }

  /** As written, a rejected entry overwrites its current feature's ID even
      when an earlier entry already matched that feature: here previous
      feature 0 is matched to current feature 0, yet current feature 0 ends
      with a fresh ID rather than the inherited ID 0. */
  lemma LaterRejectionOverwritesInheritedId()
    ensures var prev := [Feature(0, false, 0, 0), Feature(1, false, 0, 0)];
      var curr := [Feature(Unassigned, false, 0, 0), Feature(Unassigned, false, 0, 0)];
      var es := [KnnMatch(0, 0, 1.0, 2.0), KnnMatch(1, 0, 1.0, 2.0)];
      var m := Matcher(true, [0, 1], (e: KnnMatch, a: int, b: int) => true, (g: int) => g);
      var r := Associate(prev, curr, 2, es, m);
      r.matched == [0] && r.curr[0].idx == 2 && r.curr[0].idx != prev[0].idx
  {
    var prev := [Feature(0, false, 0, 0), Feature(1, false, 0, 0)];
    var curr := [Feature(Unassigned, false, 0, 0), Feature(Unassigned, false, 0, 0)];
    var es := [KnnMatch(0, 0, 1.0, 2.0), KnnMatch(1, 0, 1.0, 2.0)];
    var m := Matcher(true, [0, 1], (e: KnnMatch, a: int, b: int) => true, (g: int) => g);
    var s0 := Assoc(prev, curr, [], 2);
    var s1 := Step(s0, es[0], m);
    assert s1.curr[0].idx == 0 && s1.matched == [0] && s1.counter == 2;
    var s2 := Step(s1, es[1], m);
    assert s2.curr[0].idx == 2 && s2.counter == 3;
    assert es[1..][1..] == [];
    assert Run(s0, es, m) == s2;
    assert s2.curr[..1] == [s2.curr[0]];
  }
}
