/** Step 5 of `classify_object`: every pool entry, in pool order, is either
    checked against the authority (dropped when the lookup fails, its missing
    labels filled from the authority's) or, with validation switched off,
    given the canonical URI unchecked. The authority is reached through
    `fetch`, which gives the reply to the lookup of a notation. */
module Validation {
  import opened JsonValues
  import opened Candidates
  import opened Authority
  import opened Merge

  /** The notations of a candidate list, in order. */
  function CandidateNotations(cs: seq<Candidate>): (ns: seq<string>)
    ensures |ns| == |cs|
    ensures forall i :: 0 <= i < |cs| ==> ns[i] == cs[i].notation
  {
    seq(|cs|, i requires 0 <= i < |cs| => cs[i].notation)
  }

  /** No two candidates share a notation. */
  predicate DistinctCandidates(cs: seq<Candidate>) {
    forall i, j :: 0 <= i < j < |cs| ==> cs[i].notation != cs[j].notation
  }

  /** What step 5 makes of one pool entry, given the reply to its lookup. */
  function ValidateEntry(cfg: Config, e: PoolEntry, response: Response): (r: Option<Candidate>)
    ensures !cfg.validate ==>
      r == Some(Candidate(e.notation, e.score, e.labelDe, e.labelEn, BaseUri + e.notation))
    ensures cfg.validate ==>
      (r.Some? <==>
        && e.notation != ""
        && response.Reply? && response.status == 200
        && response.body.Some? && response.body.value.Obj?)
    ensures r.Some? ==>
      && r.value.notation == e.notation && r.value.score == e.score
      && r.value.uri == BaseUri + e.notation
    ensures cfg.validate && r.Some? ==>
      var (de, en) := Labels(response.body.value);
      && (Truthy(e.labelDe) ==> r.value.labelDe == e.labelDe)
      && (!Truthy(e.labelDe) ==> r.value.labelDe == de)
      && (Truthy(e.labelEn) ==> r.value.labelEn == e.labelEn)
      && (!Truthy(e.labelEn) ==> r.value.labelEn == en)
  {
    if cfg.validate then
      match Lookup(e.notation, response)
      case None => None
      case Some(a) => Some(Candidate(e.notation, e.score, Or(e.labelDe, a.labelDe), Or(e.labelEn, a.labelEn), a.uri))
    else
      Some(Candidate(e.notation, e.score, e.labelDe, e.labelEn, BaseUri + e.notation))
  }

  /** Whether step 5 keeps a pool entry. */
  predicate Keeps(cfg: Config, e: PoolEntry, fetch: string -> Response) {
    ValidateEntry(cfg, e, fetch(e.notation)).Some?
  }

  /** The validated candidates after step 5 has run over `pool`. */
  function Validated(cfg: Config, pool: seq<PoolEntry>, fetch: string -> Response): seq<Candidate> {
    if pool == [] then []
    else
      var v := Validated(cfg, pool[..|pool| - 1], fetch);
      var e := pool[|pool| - 1];
      match ValidateEntry(cfg, e, fetch(e.notation))
      case None => v
      case Some(c) => v + [c]
  }

  /** The validation loop over the pool, in pool order. */
  method ValidatePool(cfg: Config, pool: seq<PoolEntry>, fetch: string -> Response) returns (validated: seq<Candidate>)
    ensures validated == Validated(cfg, pool, fetch)
  {
    validated := [];
    for k := 0 to |pool|
      invariant validated == Validated(cfg, pool[..k], fetch)
    {
      assert pool[..k + 1][..k] == pool[..k];
      var e := pool[k];
      if cfg.validate {
        var result := ValidateNotation(e.notation, fetch(e.notation));
        if result.None? {
          continue;
        }
        var a := result.value;
        validated := validated + [Candidate(e.notation, e.score, Or(e.labelDe, a.labelDe), Or(e.labelEn, a.labelEn), a.uri)];
      } else {
        validated := validated + [Candidate(e.notation, e.score, e.labelDe, e.labelEn, BaseUri + e.notation)];
      }
    }
    assert pool[..|pool|] == pool;
  }

  lemma {:induction false} IndexOfSnoc(ps: seq<PoolEntry>, e: PoolEntry, n: string)
    ensures IndexOf(ps + [e], n) ==
      if IndexOf(ps, n) < |ps| then IndexOf(ps, n)
      else if e.notation == n then |ps|
      else |ps| + 1
  {
    if ps != [] && ps[0].notation != n {
      assert (ps + [e])[1..] == ps[1..] + [e];
      IndexOfSnoc(ps[1..], e, n);
    }
  }

  /** `c` is what step 5 made of the pool entry with its notation. */
  predicate MadeFrom(cfg: Config, pool: seq<PoolEntry>, fetch: string -> Response, c: Candidate) {
    var j := IndexOf(pool, c.notation);
    j < |pool| && ValidateEntry(cfg, pool[j], fetch(c.notation)) == Some(c)
  }

  /** Each validated candidate is what step 5 made of the pool entry with
      its notation. */
  lemma {:induction false} ValidatedFromPool(cfg: Config, pool: seq<PoolEntry>, fetch: string -> Response)
    requires DistinctPool(pool)
    ensures forall i :: 0 <= i < |Validated(cfg, pool, fetch)| ==>
      MadeFrom(cfg, pool, fetch, Validated(cfg, pool, fetch)[i])
  {
    if pool != [] {
      var ps, e := pool[..|pool| - 1], pool[|pool| - 1];
      assert pool == ps + [e];
      ValidatedFromPool(cfg, ps, fetch);
      var v0 := Validated(cfg, ps, fetch);
      var v := Validated(cfg, pool, fetch);
      forall i | 0 <= i < |v|
        ensures MadeFrom(cfg, pool, fetch, v[i])
      {
        IndexOfSnoc(ps, e, v[i].notation);
        if i < |v0| {
          assert v[i] == v0[i] && MadeFrom(cfg, ps, fetch, v0[i]);
          var j := IndexOf(ps, v0[i].notation);
          assert pool[j] == ps[j];
        } else {
          assert IndexOf(ps, e.notation) == |ps|;
        }
      }
    }
  }

  /** Every entry step 5 accepts is among the validated candidates. */
  lemma {:induction false} ValidatedComplete(cfg: Config, pool: seq<PoolEntry>, fetch: string -> Response)
    ensures var v := Validated(cfg, pool, fetch);
      forall j :: 0 <= j < |pool| && Keeps(cfg, pool[j], fetch) ==>
        pool[j].notation in CandidateNotations(v)
  {
    if pool != [] {
      var ps, e := pool[..|pool| - 1], pool[|pool| - 1];
      assert pool == ps + [e];
      ValidatedComplete(cfg, ps, fetch);
      var v0 := Validated(cfg, ps, fetch);
      var v := Validated(cfg, pool, fetch);
      assert CandidateNotations(v0) <= CandidateNotations(v);
      forall j | 0 <= j < |pool| && Keeps(cfg, pool[j], fetch)
        ensures pool[j].notation in CandidateNotations(v)
      {
        if j < |ps| {
          assert pool[j] == ps[j];
        } else {
          assert CandidateNotations(v)[|v| - 1] == e.notation;
        }
      }
    }
  }

  /** Validated candidates keep the pool's order, so they keep its
      uniqueness of notations too. */
  lemma {:induction false} ValidatedOrder(cfg: Config, pool: seq<PoolEntry>, fetch: string -> Response)
    requires DistinctPool(pool)
    ensures var v := Validated(cfg, pool, fetch);
      && (forall i, k :: 0 <= i < k < |v| ==>
            IndexOf(pool, v[i].notation) < IndexOf(pool, v[k].notation))
      && DistinctCandidates(v)
  {
    ValidatedFromPool(cfg, pool, fetch);
    if pool != [] {
      var ps, e := pool[..|pool| - 1], pool[|pool| - 1];
      assert pool == ps + [e];
      ValidatedOrder(cfg, ps, fetch);
      ValidatedFromPool(cfg, ps, fetch);
      var v0 := Validated(cfg, ps, fetch);
      var v := Validated(cfg, pool, fetch);
      forall i | 0 <= i < |v0|
        ensures IndexOf(pool, v0[i].notation) == IndexOf(ps, v0[i].notation) < |ps|
      {
        IndexOfSnoc(ps, e, v0[i].notation);
      }
      IndexOfSnoc(ps, e, e.notation);
      assert forall i :: 0 <= i < |v0| ==> v[i] == v0[i];
    }
  }
}
