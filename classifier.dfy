/** `classify_object`: the candidate lists of the two sources are merged,
    validated, ranked, thinned out for diversity, cut to `top_k` and turned
    into subject records. The lexical candidates (the result of the optional
    search service) and the generative candidates (the decoded reply of the
    language model) are inputs; the authority is reached through `fetch`. */
module Classifier {
  import opened JsonValues
  import opened Candidates
  import opened Authority
  import opened Merge
  import opened Validation
  import opened Ranking

  /** Step 8 for one selected candidate. */
  function ToSubject(c: Candidate): Subject {
    Subject(c.uri, c.notation, c.labelDe, c.labelEn, Round2(c.score), Scheme)
  }

  /** The validated candidates of steps 4 and 5. */
  function ValidatedOf(cfg: Config, cands: seq<RawCandidate>, fetch: string -> Response): seq<Candidate> {
    Validated(cfg, Merged(cands), fetch)
  }

  /** The candidates steps 6 and 7 select. */
  function Selection(cfg: Config, cands: seq<RawCandidate>, fetch: string -> Response): seq<Candidate> {
    Select(cfg.topK, Leaders(SortDesc(ValidatedOf(cfg, cands, fetch))), ValidatedOf(cfg, cands, fetch))
  }

  /** The subject records `classify_object` returns. */
  function Subjects(cfg: Config, cands: seq<RawCandidate>, fetch: string -> Response): seq<Subject> {
    var top := Take(Selection(cfg, cands, fetch), cfg.topK);
    seq(|top|, i requires 0 <= i < |top| => ToSubject(top[i]))
  }

  /** `classify_object`, from the candidate lists on. */
  method Classify(cfg: Config, lexical: seq<RawCandidate>, generative: seq<RawCandidate>, fetch: string -> Response)
    returns (subjects: seq<Subject>)
    ensures subjects == Subjects(cfg, lexical + generative, fetch)
  {
    ghost var cands := lexical + generative;
    var pool := MergeCandidates(lexical + generative);
    var validated := ValidatePool(cfg, pool, fetch);
    assert validated == ValidatedOf(cfg, cands, fetch);
    var ranked := SortDesc(validated);
    var leaders := DiversityPass(ranked);
    var selected := SelectTopK(cfg.topK, leaders, validated);
    assert selected == Selection(cfg, cands, fetch);
    var top := Take(selected, cfg.topK);
    subjects := [];
    for i := 0 to |top|
      invariant subjects == seq(i, k requires 0 <= k < i => ToSubject(top[k]))
    {
      subjects := subjects + [ToSubject(top[i])];
    }
  }

  /** The notations of the subject records, in order. */
  function SubjectNotations(s: seq<Subject>): (ns: seq<string>)
    ensures |ns| == |s|
    ensures forall i :: 0 <= i < |s| ==> ns[i] == s[i].notation
  {
    seq(|s|, i requires 0 <= i < |s| => s[i].notation)
  }

  /** The validated candidates have distinct notations, and each is what
      step 5 made of the pool entry with its notation. */
  lemma ValidatedOfSpec(cfg: Config, cands: seq<RawCandidate>, fetch: string -> Response)
    ensures DistinctCandidates(ValidatedOf(cfg, cands, fetch))
    ensures forall c :: c in ValidatedOf(cfg, cands, fetch) ==> MadeFrom(cfg, Merged(cands), fetch, c)
  {
    MergedKeys(cands);
    ValidatedOrder(cfg, Merged(cands), fetch);
    ValidatedFromPool(cfg, Merged(cands), fetch);
  }

  /** The selection: `min(top_k, n)` distinct validated candidates. */
  lemma SelectionSpec(cfg: Config, cands: seq<RawCandidate>, fetch: string -> Response)
    ensures |Selection(cfg, cands, fetch)| == Min(cfg.topK, |ValidatedOf(cfg, cands, fetch)|)
    ensures DistinctCandidates(Selection(cfg, cands, fetch))
    ensures forall c :: c in Selection(cfg, cands, fetch) ==> c in ValidatedOf(cfg, cands, fetch)
  {
    var v := ValidatedOf(cfg, cands, fetch);
    ValidatedOfSpec(cfg, cands, fetch);
    LeadersOfRanking(v);
    DistinctNoDup(v);
    SelectMembersOf(cfg.topK, Leaders(SortDesc(v)), v);
    SelectLengthOf(cfg.topK, Leaders(SortDesc(v)), v);
  }

  /** The result holds `min(top_k, n)` records for the `n` candidates that
      survive validation, no notation twice. */
  lemma ClassifyCount(cfg: Config, cands: seq<RawCandidate>, fetch: string -> Response)
    ensures |Subjects(cfg, cands, fetch)| == Min(cfg.topK, |ValidatedOf(cfg, cands, fetch)|)
    ensures forall i, j :: 0 <= i < j < |Subjects(cfg, cands, fetch)| ==>
      Subjects(cfg, cands, fetch)[i].notation != Subjects(cfg, cands, fetch)[j].notation
  {
    SelectionSpec(cfg, cands, fetch);
  }

  /** Each record names a notation some candidate proposed, carries its
      canonical URI and the scheme, and its confidence is the notation's top
      score rounded to two decimals; with validation on, the authority
      accepted the notation. */
  lemma ClassifyRecords(cfg: Config, cands: seq<RawCandidate>, fetch: string -> Response)
    ensures forall i :: 0 <= i < |Subjects(cfg, cands, fetch)| ==>
      && Subjects(cfg, cands, fetch)[i].notation != ""
      && FirstWith(cands, Subjects(cfg, cands, fetch)[i].notation) < |cands|
      && Subjects(cfg, cands, fetch)[i].valueURI == BaseUri + Subjects(cfg, cands, fetch)[i].notation
      && Subjects(cfg, cands, fetch)[i].scheme == "Iconclass"
      && Subjects(cfg, cands, fetch)[i].confidence == Round2(TopScore(cands, Subjects(cfg, cands, fetch)[i].notation))
      && Subjects(cfg, cands, fetch)[i].confidence >= 0.0
      && (cfg.validate ==>
            Lookup(Subjects(cfg, cands, fetch)[i].notation, fetch(Subjects(cfg, cands, fetch)[i].notation)).Some?)
  {
    var pool := Merged(cands);
    var sel := Selection(cfg, cands, fetch);
    var subjects := Subjects(cfg, cands, fetch);
    SelectionSpec(cfg, cands, fetch);
    ValidatedOfSpec(cfg, cands, fetch);
    MergedKeys(cands);
    MergedScores(cands);
    forall i | 0 <= i < |subjects|
      ensures subjects[i].notation != "" && FirstWith(cands, subjects[i].notation) < |cands|
      ensures subjects[i].valueURI == BaseUri + subjects[i].notation
      ensures subjects[i].confidence == Round2(TopScore(cands, subjects[i].notation))
      ensures cfg.validate ==> Lookup(subjects[i].notation, fetch(subjects[i].notation)).Some?
    {
      var c := sel[i];
      assert subjects[i] == ToSubject(c);
      assert c in ValidatedOf(cfg, cands, fetch);
      var j := IndexOf(pool, c.notation);
      assert MadeFrom(cfg, pool, fetch, c);
      assert pool[j].notation == c.notation;
    }
  }

  /** A record's labels are those of the first candidate proposing its
      notation (`label_de`, else `label`; `label_en`); with validation on,
      a falsy one is replaced by the authority's. */
  lemma ClassifyLabels(cfg: Config, cands: seq<RawCandidate>, fetch: string -> Response, i: nat)
    requires i < |Subjects(cfg, cands, fetch)|
    ensures FirstWith(cands, Subjects(cfg, cands, fetch)[i].notation) < |cands|
    ensures
      var s := Subjects(cfg, cands, fetch)[i];
      var first := cands[FirstWith(cands, s.notation)];
      var de, en := Or(first.labelDe, first.plainLabel), first.labelEn;
      if cfg.validate then
        var a := Lookup(s.notation, fetch(s.notation));
        a.Some? && s.prefDe == Or(de, a.value.labelDe) && s.prefEn == Or(en, a.value.labelEn)
      else
        s.prefDe == de && s.prefEn == en
  {
    var pool := Merged(cands);
    var sel := Selection(cfg, cands, fetch);
    var subjects := Subjects(cfg, cands, fetch);
    SelectionSpec(cfg, cands, fetch);
    ValidatedOfSpec(cfg, cands, fetch);
    MergedKeys(cands);
    MergedLabels(cands);
    var c := sel[i];
    assert subjects[i] == ToSubject(c);
    assert c in ValidatedOf(cfg, cands, fetch);
    var j := IndexOf(pool, c.notation);
    assert MadeFrom(cfg, pool, fetch, c);
    assert pool[j].notation == c.notation;
  }

  /** The first records are the division leaders: each the best validated
      candidate of its main division (highest score, earliest in the pool on
      a tie), no two from one division, in descending confidence. */
  lemma ClassifyDiversity(cfg: Config, cands: seq<RawCandidate>, fetch: string -> Response)
    ensures Min(cfg.topK, |Divisions(ValidatedOf(cfg, cands, fetch))|) <= |Selection(cfg, cands, fetch)|
    ensures |Subjects(cfg, cands, fetch)| == |Selection(cfg, cands, fetch)|
    ensures forall i :: 0 <= i < Min(cfg.topK, |Divisions(ValidatedOf(cfg, cands, fetch))|) ==>
      && BestOf(ValidatedOf(cfg, cands, fetch), Division(Selection(cfg, cands, fetch)[i]))
           == Some(Selection(cfg, cands, fetch)[i])
      && Subjects(cfg, cands, fetch)[i] == ToSubject(Selection(cfg, cands, fetch)[i])
    ensures forall i, j :: 0 <= i < j < Min(cfg.topK, |Divisions(ValidatedOf(cfg, cands, fetch))|) ==>
      && Division(Selection(cfg, cands, fetch)[i]) != Division(Selection(cfg, cands, fetch)[j])
      && Subjects(cfg, cands, fetch)[i].confidence >= Subjects(cfg, cands, fetch)[j].confidence
  {
    var v := ValidatedOf(cfg, cands, fetch);
    var sel := Selection(cfg, cands, fetch);
    var subjects := Subjects(cfg, cands, fetch);
    SelectLeaders(cfg.topK, v);
    SelectionSpec(cfg, cands, fetch);
    ClassifyRecords(cfg, cands, fetch);
    forall i, j | 0 <= i < j < Min(cfg.topK, |Divisions(v)|)
      ensures subjects[i].confidence >= subjects[j].confidence
    {
      Round2Monotone(sel[j].score, sel[i].score);
    }
  }

  /** With room for every division, every main division of the validated
      candidates is represented in the selection. */
  lemma ClassifyCoversDivisions(cfg: Config, cands: seq<RawCandidate>, fetch: string -> Response)
    requires cfg.topK >= |Divisions(ValidatedOf(cfg, cands, fetch))|
    ensures Divisions(ValidatedOf(cfg, cands, fetch)) <= Divisions(Selection(cfg, cands, fetch))
  {
    SelectCoversDivisions(cfg.topK, ValidatedOf(cfg, cands, fetch));
  }

  /** After the leaders, each record's candidate scores at least as high as
      every validated candidate left out, their confidences descend, and
      candidates that tie on score come in pool order, also across the cut. */
  lemma ClassifyBackfill(cfg: Config, cands: seq<RawCandidate>, fetch: string -> Response)
    ensures forall i, c ::
      (&& Min(cfg.topK, |Divisions(ValidatedOf(cfg, cands, fetch))|) <= i < |Selection(cfg, cands, fetch)|
       && c in ValidatedOf(cfg, cands, fetch) && c !in Selection(cfg, cands, fetch)) ==>
        c.score <= Selection(cfg, cands, fetch)[i].score
    ensures forall i, j :: Min(cfg.topK, |Divisions(ValidatedOf(cfg, cands, fetch))|) <= i < j < |Subjects(cfg, cands, fetch)| ==>
      Subjects(cfg, cands, fetch)[i].confidence >= Subjects(cfg, cands, fetch)[j].confidence
    ensures forall i, j ::
      (&& Min(cfg.topK, |Divisions(ValidatedOf(cfg, cands, fetch))|) <= i < j < |Selection(cfg, cands, fetch)|
       && Selection(cfg, cands, fetch)[i].score == Selection(cfg, cands, fetch)[j].score) ==>
        IndexOf(Merged(cands), Selection(cfg, cands, fetch)[i].notation)
          < IndexOf(Merged(cands), Selection(cfg, cands, fetch)[j].notation)
    ensures forall i, c ::
      (&& Min(cfg.topK, |Divisions(ValidatedOf(cfg, cands, fetch))|) <= i < |Selection(cfg, cands, fetch)|
       && c in ValidatedOf(cfg, cands, fetch) && c !in Selection(cfg, cands, fetch)
       && c.score == Selection(cfg, cands, fetch)[i].score) ==>
        IndexOf(Merged(cands), Selection(cfg, cands, fetch)[i].notation) < IndexOf(Merged(cands), c.notation)
  {
    var v := ValidatedOf(cfg, cands, fetch);
    LeadersOfRanking(v);
    SelectBackfillOf(cfg.topK, Leaders(SortDesc(v)), v);
    ClassifyBackfillOrder(cfg, cands, fetch);
    ClassifyBackfillTies(cfg, cands, fetch);
    ClassifyBoundaryTies(cfg, cands, fetch);
  }

  /** A validated candidate left out that ties with a backfilled record's
      candidate comes after it in the pool: the stable sort and the slice
      keep the earlier one. */
  lemma ClassifyBoundaryTies(cfg: Config, cands: seq<RawCandidate>, fetch: string -> Response)
    ensures forall i, c ::
      (&& Min(cfg.topK, |Divisions(ValidatedOf(cfg, cands, fetch))|) <= i < |Selection(cfg, cands, fetch)|
       && c in ValidatedOf(cfg, cands, fetch) && c !in Selection(cfg, cands, fetch)
       && c.score == Selection(cfg, cands, fetch)[i].score) ==>
        IndexOf(Merged(cands), Selection(cfg, cands, fetch)[i].notation) < IndexOf(Merged(cands), c.notation)
  {
    var v := ValidatedOf(cfg, cands, fetch);
    var sel := Selection(cfg, cands, fetch);
    var pool := Merged(cands);
    LeadersOfRanking(v);
    SelectBoundaryTies(cfg.topK, Leaders(SortDesc(v)), v);
    MergedKeys(cands);
    ValidatedOrder(cfg, pool, fetch);
    forall i, c | Min(cfg.topK, |Divisions(v)|) <= i < |sel| && c in v && c !in sel && c.score == sel[i].score
      ensures IndexOf(pool, sel[i].notation) < IndexOf(pool, c.notation)
    {
      assert Precedes(v, sel[i], c);
      var p, q :| 0 <= p < q < |v| && v[p] == sel[i] && v[q] == c;
    }
  }

  /** Backfill candidates that tie on score keep the pool's order, which the
      validated list keeps and the stable sort does not disturb. */
  lemma ClassifyBackfillTies(cfg: Config, cands: seq<RawCandidate>, fetch: string -> Response)
    ensures forall i, j ::
      (&& Min(cfg.topK, |Divisions(ValidatedOf(cfg, cands, fetch))|) <= i < j < |Selection(cfg, cands, fetch)|
       && Selection(cfg, cands, fetch)[i].score == Selection(cfg, cands, fetch)[j].score) ==>
        IndexOf(Merged(cands), Selection(cfg, cands, fetch)[i].notation)
          < IndexOf(Merged(cands), Selection(cfg, cands, fetch)[j].notation)
  {
    var v := ValidatedOf(cfg, cands, fetch);
    var sel := Selection(cfg, cands, fetch);
    var pool := Merged(cands);
    LeadersOfRanking(v);
    SelectBackfillTies(cfg.topK, Leaders(SortDesc(v)), v);
    MergedKeys(cands);
    ValidatedOrder(cfg, pool, fetch);
    forall i, j | Min(cfg.topK, |Divisions(v)|) <= i < j < |sel| && sel[i].score == sel[j].score
      ensures IndexOf(pool, sel[i].notation) < IndexOf(pool, sel[j].notation)
    {
      assert Precedes(v, sel[i], sel[j]);
      var p, q :| 0 <= p < q < |v| && v[p] == sel[i] && v[q] == sel[j];
    }
  }

  lemma ClassifyBackfillOrder(cfg: Config, cands: seq<RawCandidate>, fetch: string -> Response)
    ensures forall i, j :: Min(cfg.topK, |Divisions(ValidatedOf(cfg, cands, fetch))|) <= i < j < |Subjects(cfg, cands, fetch)| ==>
      Subjects(cfg, cands, fetch)[i].confidence >= Subjects(cfg, cands, fetch)[j].confidence
  {
    var v := ValidatedOf(cfg, cands, fetch);
    var sel := Selection(cfg, cands, fetch);
    var subjects := Subjects(cfg, cands, fetch);
    LeadersOfRanking(v);
    SelectFillDescends(cfg.topK, Leaders(SortDesc(v)), v);
    forall i, j | Min(cfg.topK, |Divisions(v)|) <= i < j < |subjects|
      ensures subjects[i].confidence >= subjects[j].confidence
    {
      Round2Monotone(sel[j].score, sel[i].score);
    }
  }

  /** With room for all of them, every candidate that survives validation is
      returned. */
  lemma ClassifyKeepsAll(cfg: Config, cands: seq<RawCandidate>, fetch: string -> Response)
    requires |ValidatedOf(cfg, cands, fetch)| <= cfg.topK
    ensures forall c :: c in ValidatedOf(cfg, cands, fetch) ==>
      c.notation in SubjectNotations(Subjects(cfg, cands, fetch))
  {
    var v := ValidatedOf(cfg, cands, fetch);
    var sel := Selection(cfg, cands, fetch);
    SelectionSpec(cfg, cands, fetch);
    ValidatedOfSpec(cfg, cands, fetch);
    DistinctNoDup(v);
    DistinctNoDup(sel);
    NoDupSubsetFull(sel, v);
    forall c | c in v
      ensures c.notation in SubjectNotations(Subjects(cfg, cands, fetch))
    {
      var i :| 0 <= i < |sel| && sel[i] == c;
      assert Subjects(cfg, cands, fetch)[i].notation == c.notation;
    }
  }

  /** With validation on and every lookup failing, nothing survives step 5. */
  lemma {:induction false} NothingValidated(cfg: Config, pool: seq<PoolEntry>, fetch: string -> Response)
    requires cfg.validate
    requires forall k :: 0 <= k < |pool| ==> Lookup(pool[k].notation, fetch(pool[k].notation)).None?
    ensures Validated(cfg, pool, fetch) == []
  {
    if pool != [] {
      NothingValidated(cfg, pool[..|pool| - 1], fetch);
    }
  }

  /** With validation on and the authority finding none of the notations,
      the result is empty. */
  lemma ClassifyValidationGate(cfg: Config, cands: seq<RawCandidate>, fetch: string -> Response)
    requires cfg.validate
    requires forall k :: 0 <= k < |cands| ==> Lookup(cands[k].notation, fetch(cands[k].notation)).None?
    ensures Subjects(cfg, cands, fetch) == []
  {
    var pool := Merged(cands);
    MergedKeys(cands);
    forall k | 0 <= k < |pool|
      ensures Lookup(pool[k].notation, fetch(pool[k].notation)).None?
    {
      var f := FirstWith(cands, pool[k].notation);
      assert cands[f].notation == pool[k].notation;
    }
    NothingValidated(cfg, pool, fetch);
    ClassifyCount(cfg, cands, fetch);
  }

  /** Confidences stay within [0, 1] when every candidate's score does. */
  lemma ClassifyConfidenceBounds(cfg: Config, cands: seq<RawCandidate>, fetch: string -> Response)
    requires forall k :: 0 <= k < |cands| ==> ScoreOf(cands[k]) <= 1.0
    ensures forall i :: 0 <= i < |Subjects(cfg, cands, fetch)| ==>
      0.0 <= Subjects(cfg, cands, fetch)[i].confidence <= 1.0
  {
    ClassifyRecords(cfg, cands, fetch);
    Round2Exact(100);
    forall i | 0 <= i < |Subjects(cfg, cands, fetch)|
      ensures Subjects(cfg, cands, fetch)[i].confidence <= 1.0
    {
      Round2Monotone(TopScore(cands, Subjects(cfg, cands, fetch)[i].notation), 1.0);
    }
  }

  /** A lexical hit for 25F scored 0.8, then generative suggestions 25F
      ("Stadtansicht") and 62 ("Karte"), validation off, room for five: both
      notations come back, 25F first. 25F keeps the labels of its first
      candidate, the lexical hit, which has none. */
  lemma BaselScenario()
    ensures Subjects(
        Config(5, false),
        [RawCandidate("25F", Null, Null, Null, Some(0.8))]
          + [RawCandidate("25F", Str("Stadtansicht"), Null, Null, None),
             RawCandidate("62", Str("Karte"), Null, Null, None)],
        n => Unreachable)
      == [Subject("https://iconclass.org/25F", "25F", Null, Null, 0.8, "Iconclass"),
          Subject("https://iconclass.org/62", "62", Str("Karte"), Null, 0.7, "Iconclass")]
  {
    var cfg := Config(5, false);
    var fetch: string -> Response := n => Unreachable;
    var cands := [RawCandidate("25F", Null, Null, Null, Some(0.8))]
      + [RawCandidate("25F", Str("Stadtansicht"), Null, Null, None),
         RawCandidate("62", Str("Karte"), Null, Null, None)];
    BaselSelection(cfg, cands, fetch);
    Round2Exact(80);
    Round2Exact(70);
    assert BaseUri + "25F" == "https://iconclass.org/25F";
    assert BaseUri + "62" == "https://iconclass.org/62";
  }

  /** The pool of the scenario above: 25F at the lexical hit's score with
      its (missing) labels, then 62 at the default score. */
  lemma BaselPool(cands: seq<RawCandidate>)
    requires cands == [RawCandidate("25F", Null, Null, Null, Some(0.8)),
                       RawCandidate("25F", Str("Stadtansicht"), Null, Null, None),
                       RawCandidate("62", Str("Karte"), Null, Null, None)]
    ensures Merged(cands) == [PoolEntry("25F", 0.8, Null, Null), PoolEntry("62", 0.7, Str("Karte"), Null)]
  {
    var a, b := cands[0], cands[1];
    assert cands[..2][..1] == [a] && cands[..2] == [a, b] && cands[..|cands| - 1] == [a, b];
    assert Merged([a]) == [PoolEntry("25F", 0.8, Null, Null)];
    assert Merged([a, b]) == [PoolEntry("25F", 0.8, Null, Null)];
    assert IndexOf([PoolEntry("25F", 0.8, Null, Null)], "62") == 1;
  }

  /** Both pool entries pass unchecked and both are selected, 25F first. */
  lemma BaselSelection(cfg: Config, cands: seq<RawCandidate>, fetch: string -> Response)
    requires cfg == Config(5, false)
    requires cands == [RawCandidate("25F", Null, Null, Null, Some(0.8)),
                       RawCandidate("25F", Str("Stadtansicht"), Null, Null, None),
                       RawCandidate("62", Str("Karte"), Null, Null, None)]
    ensures Selection(cfg, cands, fetch) ==
      [Candidate("25F", 0.8, Null, Null, BaseUri + "25F"), Candidate("62", 0.7, Str("Karte"), Null, BaseUri + "62")]
  {
    BaselPool(cands);
    var pool := [PoolEntry("25F", 0.8, Null, Null), PoolEntry("62", 0.7, Str("Karte"), Null)];
    var x := Candidate("25F", 0.8, Null, Null, BaseUri + "25F");
    var y := Candidate("62", 0.7, Str("Karte"), Null, BaseUri + "62");
    assert pool[..1] == [pool[0]];
    assert Validated(cfg, pool, fetch) == [x, y];
    assert SortDesc([y]) == [y];
    assert SortDesc([x, y]) == [x, y];
    assert Division(x) == '2' && Division(y) == '6';
    assert Leaders([x]) == [x];
    assert Leaders([x, y]) == [x, y];
    assert Without([y], [x, y]) == [];
    assert Without([x, y], [x, y]) == [];
  }

  /** Scores are not clamped: a lexical score above 1 comes out as a
      confidence above 1. */
  lemma ConfidenceNotClamped()
    ensures Subjects(Config(5, false), [RawCandidate("25F", Null, Null, Null, Some(1.5))], n => Unreachable)
      == [Subject("https://iconclass.org/25F", "25F", Null, Null, 1.5, "Iconclass")]
  {
    var cfg := Config(5, false);
    var fetch: string -> Response := n => Unreachable;
    var a := RawCandidate("25F", Null, Null, Null, Some(1.5));
    var x := Candidate("25F", 1.5, Null, Null, BaseUri + "25F");
    assert Merged([a]) == [PoolEntry("25F", 1.5, Null, Null)];
    assert Validated(cfg, [PoolEntry("25F", 1.5, Null, Null)], fetch) == [x];
    assert Leaders(SortDesc([x])) == [x];
    assert Without([x], [x]) == [];
    assert Selection(cfg, [a], fetch) == [x];
    Round2Exact(150);
    assert BaseUri + "25F" == "https://iconclass.org/25F";
  }
}
