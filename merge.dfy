/** Step 4 of `classify_object`: the lexical and generative candidates are
    unified into a pool keyed by notation, kept in the order in which each
    notation was first met, scoring each notation by the highest score any of
    its candidates carries. */
module Merge {
  import opened JsonValues
  import opened Candidates

  /** The notations of the pool, in pool order (the dict's keys). */
  function Notations(pool: seq<PoolEntry>): (ns: seq<string>)
    ensures |ns| == |pool|
    ensures forall i :: 0 <= i < |pool| ==> ns[i] == pool[i].notation
  {
    seq(|pool|, i requires 0 <= i < |pool| => pool[i].notation)
  }

  /** The position of the entry keyed `n`, or `|pool|` when there is none. */
  function IndexOf(pool: seq<PoolEntry>, n: string): (i: nat)
    ensures i <= |pool|
    ensures i < |pool| ==> pool[i].notation == n
    ensures forall k :: 0 <= k < i ==> pool[k].notation != n
  {
    if pool == [] then 0
    else if pool[0].notation == n then 0
    else 1 + IndexOf(pool[1..], n)
  }

  /** No two pool entries share a notation. */
  predicate DistinctPool(pool: seq<PoolEntry>) {
    forall i, j :: 0 <= i < j < |pool| ==> pool[i].notation != pool[j].notation
  }

  /** The index of the first candidate whose notation is `n`, or `|cands|`. */
  function FirstWith(cands: seq<RawCandidate>, n: string): (k: nat)
    ensures k <= |cands|
    ensures k < |cands| ==> cands[k].notation == n
    ensures forall j :: 0 <= j < k ==> cands[j].notation != n
  {
    if cands == [] then 0
    else if cands[0].notation == n then 0
    else 1 + FirstWith(cands[1..], n)
  }

  /** The entry a candidate creates when its notation is new: score 0.0,
      `label_de or label` and `label_en` of that candidate. */
  function NewEntry(c: RawCandidate): PoolEntry {
    PoolEntry(c.notation, 0.0, Or(c.labelDe, c.plainLabel), c.labelEn)
  }

  /** One iteration of the merge loop. A candidate without a notation is
      skipped; a new notation gets a fresh entry; the entry's score becomes
      the larger of its score and the candidate's. */
  function MergeStep(pool: seq<PoolEntry>, c: RawCandidate): seq<PoolEntry> {
    if c.notation == "" then pool
    else
      var i := IndexOf(pool, c.notation);
      var p := if i < |pool| then pool else pool + [NewEntry(c)];
      p[i := p[i].(score := Max(p[i].score, ScoreOf(c)))]
  }

  /** The pool after the merge loop has run over `cands`. */
  function Merged(cands: seq<RawCandidate>): seq<PoolEntry> {
    if cands == [] then [] else MergeStep(Merged(cands[..|cands| - 1]), cands[|cands| - 1])
  }

  /** The merge loop over `api_candidates + llm_candidates`. */
  method MergeCandidates(cands: seq<RawCandidate>) returns (pool: seq<PoolEntry>)
    ensures pool == Merged(cands)
  {
    pool := [];
    for k := 0 to |cands|
      invariant pool == Merged(cands[..k])
    {
      assert cands[..k + 1][..k] == cands[..k];
      var c := cands[k];
      if c.notation == "" {
        continue;
      }
      var i := IndexOf(pool, c.notation);
      if i == |pool| {
        pool := pool + [NewEntry(c)];
      }
      pool := pool[i := pool[i].(score := Max(pool[i].score, ScoreOf(c)))];
    }
    assert cands[..|cands|] == cands;
  }

  lemma {:induction false} FirstWithSnoc(xs: seq<RawCandidate>, c: RawCandidate, n: string)
    ensures FirstWith(xs + [c], n) ==
      if FirstWith(xs, n) < |xs| then FirstWith(xs, n)
      else if c.notation == n then |xs|
      else |xs| + 1
  {
    if xs != [] && xs[0].notation != n {
      assert (xs + [c])[1..] == xs[1..] + [c];
      FirstWithSnoc(xs[1..], c, n);
    }
  }

  /** The non-empty notations of `cands`, each once, in order of first
      appearance. */
  function FirstSeen(cands: seq<RawCandidate>): seq<string> {
    if cands == [] then []
    else
      var ns := FirstSeen(cands[..|cands| - 1]);
      var n := cands[|cands| - 1].notation;
      if n == "" || n in ns then ns else ns + [n]
  }

  /** The dict's keys after the merge loop are the first-seen notations. */
  lemma {:induction false} MergedNotations(cands: seq<RawCandidate>)
    ensures Notations(Merged(cands)) == FirstSeen(cands)
  {
    if cands != [] {
      var xs, c := cands[..|cands| - 1], cands[|cands| - 1];
      MergedNotations(xs);
      var pool0 := Merged(xs);
      var pool := Merged(cands);
      if c.notation != "" {
        var i := IndexOf(pool0, c.notation);
        if i < |pool0| {
          assert c.notation in Notations(pool0);
          assert Notations(pool) == Notations(pool0);
        } else {
          assert c.notation !in Notations(pool0);
          assert Notations(pool) == Notations(pool0) + [c.notation];
        }
      }
    }
  }

  /** A notation is first seen exactly when it is non-empty and some
      candidate carries it; none is listed twice. */
  lemma {:induction false} FirstSeenMembers(cands: seq<RawCandidate>)
    ensures var ns := FirstSeen(cands);
      && (forall i, j :: 0 <= i < j < |ns| ==> ns[i] != ns[j])
      && (forall n :: n in ns <==> n != "" && FirstWith(cands, n) < |cands|)
  {
    if cands != [] {
      var xs, c := cands[..|cands| - 1], cands[|cands| - 1];
      assert cands == xs + [c];
      FirstSeenMembers(xs);
      var ns0, ns := FirstSeen(xs), FirstSeen(cands);
      forall n: string
        ensures n in ns <==> n != "" && FirstWith(cands, n) < |cands|
      {
        FirstWithSnoc(xs, c, n);
        if n in ns0 {
          assert n in ns;
        }
      }
      if c.notation != "" && c.notation !in ns0 {
        assert ns == ns0 + [c.notation];
        forall i, j | 0 <= i < j < |ns|
          ensures ns[i] != ns[j]
        {
          if j == |ns0| {
            assert ns[i] in ns0;
          }
        }
      }
    }
  }

  /** First-seen notations are listed in order of their first candidate. */
  lemma {:induction false} FirstSeenOrder(cands: seq<RawCandidate>)
    ensures var ns := FirstSeen(cands);
      forall i, j :: 0 <= i < j < |ns| ==> FirstWith(cands, ns[i]) < FirstWith(cands, ns[j])
  {
    if cands != [] {
      var xs, c := cands[..|cands| - 1], cands[|cands| - 1];
      assert cands == xs + [c];
      FirstSeenMembers(xs);
      FirstSeenOrder(xs);
      var ns0 := FirstSeen(xs);
      var ns := FirstSeen(cands);
      forall i, j | 0 <= i < j < |ns|
        ensures FirstWith(cands, ns[i]) < FirstWith(cands, ns[j])
      {
        FirstWithSnoc(xs, c, ns[i]);
        FirstWithSnoc(xs, c, ns[j]);
        assert ns[i] in ns0;
        if j < |ns0| {
          assert ns[j] in ns0;
        }
      }
    }
  }

  /** A pool entry's score after the merge step. */
  lemma MergeStepShape(pool: seq<PoolEntry>, c: RawCandidate)
    requires c.notation != ""
    ensures var i := IndexOf(pool, c.notation);
      var r := MergeStep(pool, c);
      && |r| == (if i < |pool| then |pool| else |pool| + 1)
      && r[i].score == Max(if i < |pool| then pool[i].score else 0.0, ScoreOf(c))
      && (i < |pool| ==> r[i] == pool[i].(score := r[i].score))
      && (i == |pool| ==> r[i] == NewEntry(c).(score := r[i].score))
      && (forall j :: 0 <= j < |pool| && j != i ==> r[j] == pool[j])
  {
  }

  /** The pool holds every non-empty notation of the candidates exactly once,
      in the order in which each was first met, and nothing else. */
  lemma MergedKeys(cands: seq<RawCandidate>)
    ensures var pool := Merged(cands);
      && DistinctPool(pool)
      && (forall i :: 0 <= i < |pool| ==>
            pool[i].notation != "" && FirstWith(cands, pool[i].notation) < |cands|)
      && (forall k :: 0 <= k < |cands| && cands[k].notation != "" ==>
            cands[k].notation in Notations(pool))
      && (forall i, j :: 0 <= i < j < |pool| ==>
            FirstWith(cands, pool[i].notation) < FirstWith(cands, pool[j].notation))
  {
    var pool := Merged(cands);
    MergedNotations(cands);
    FirstSeenMembers(cands);
    FirstSeenOrder(cands);
    var ns := Notations(pool);
    assert forall i :: 0 <= i < |pool| ==> pool[i].notation == ns[i];
    forall k | 0 <= k < |cands| && cands[k].notation != ""
      ensures cands[k].notation in ns
    {
      assert FirstWith(cands, cands[k].notation) <= k;
    }
  }

  /** Each entry carries the labels of the first candidate with its notation;
      later candidates never change them. */
  lemma {:induction false} MergedLabels(cands: seq<RawCandidate>)
    ensures var pool := Merged(cands);
      forall i :: 0 <= i < |pool| ==>
        var f := FirstWith(cands, pool[i].notation);
        && f < |cands|
        && pool[i].labelDe == Or(cands[f].labelDe, cands[f].plainLabel)
        && pool[i].labelEn == cands[f].labelEn
  {
    MergedKeys(cands);
    if cands != [] {
      var xs, c := cands[..|cands| - 1], cands[|cands| - 1];
      assert cands == xs + [c];
      MergedKeys(xs);
      MergedLabels(xs);
      var pool0 := Merged(xs);
      var pool := Merged(cands);
      forall i | 0 <= i < |pool|
        ensures var f := FirstWith(cands, pool[i].notation);
          && pool[i].labelDe == Or(cands[f].labelDe, cands[f].plainLabel)
          && pool[i].labelEn == cands[f].labelEn
      {
        var n := pool[i].notation;
        FirstWithSnoc(xs, c, n);
        if c.notation != "" {
          MergeStepShape(pool0, c);
          if i == |pool0| {
            assert c.notation !in Notations(pool0);
            assert FirstWith(xs, n) == |xs|;
          } else {
            assert cands[FirstWith(xs, n)] == xs[FirstWith(xs, n)];
          }
        } else {
          assert cands[FirstWith(xs, n)] == xs[FirstWith(xs, n)];
        }
      }
    }
  }

  /** The highest score among the candidates with notation `n`, or 0.0 when
      none of them is higher: never negative, never below one of those
      candidates, and reached by one of them unless it is 0.0. */
  function TopScore(cands: seq<RawCandidate>, n: string): (s: real)
    ensures s >= 0.0
    ensures forall k :: 0 <= k < |cands| && cands[k].notation == n ==> ScoreOf(cands[k]) <= s
    ensures s != 0.0 ==>
      exists k :: 0 <= k < |cands| && cands[k].notation == n && ScoreOf(cands[k]) == s
  {
    if cands == [] then 0.0
    else
      var xs, c := cands[..|cands| - 1], cands[|cands| - 1];
      assert forall k :: 0 <= k < |xs| ==> cands[k] == xs[k];
      var s0 := TopScore(xs, n);
      if c.notation == n then Max(s0, ScoreOf(c)) else s0
  }

  /** Each entry's score is the top score of its notation's candidates. */
  lemma {:induction false} MergedScores(cands: seq<RawCandidate>)
    ensures var pool := Merged(cands);
      forall i :: 0 <= i < |pool| ==> pool[i].score == TopScore(cands, pool[i].notation)
  {
    if cands != [] {
      var xs, c := cands[..|cands| - 1], cands[|cands| - 1];
      MergedScores(xs);
      var pool0 := Merged(xs);
      var pool := Merged(cands);
      if c.notation != "" {
        MergeStepShape(pool0, c);
        var i := IndexOf(pool0, c.notation);
        if i == |pool0| {
          MergedKeys(xs);
          assert c.notation !in Notations(pool0);
          assert forall k :: 0 <= k < |xs| ==> xs[k].notation != c.notation;
          assert TopScore(xs, c.notation) == 0.0;
          assert pool[i].score == TopScore(cands, c.notation);
          forall j | 0 <= j < |pool0|
            ensures pool[j].score == TopScore(cands, pool[j].notation)
          {
            assert pool[j] == pool0[j] && pool0[j].notation != c.notation;
            assert TopScore(cands, pool[j].notation) == TopScore(xs, pool[j].notation);
          }
        } else {
          MergedKeys(xs);
          forall j | 0 <= j < |pool|
            ensures pool[j].score == TopScore(cands, pool[j].notation)
          {
            if j != i {
              assert pool[j] == pool0[j] && pool0[j].notation != c.notation;
            }
          }
        }
      } else {
        MergedKeys(xs);
        assert forall j :: 0 <= j < |pool| ==> pool[j] == pool0[j] && pool0[j].notation != c.notation;
      }
    }
  }
}
