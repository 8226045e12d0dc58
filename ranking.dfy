/** Steps 6 and 7 of `classify_object`: the validated candidates are ranked
    by score (highest first, ties in pool order), the first candidate of
    each main division is kept aside, and up to `top_k` candidates are
    chosen: the division leaders first, then the best of the rest. */
module Ranking {
  import opened JsonValues
  import opened Candidates
  import opened Validation

  /** Places `x` in front of the first element that scores no more than it. */
  function InsertByScore(x: Candidate, s: seq<Candidate>): seq<Candidate> {
    if s == [] || s[0].score <= x.score then [x] + s
    else [s[0]] + InsertByScore(x, s[1..])
  }

  /** `sorted(xs, key=lambda x: x["score"], reverse=True)`. */
  function SortDesc(xs: seq<Candidate>): seq<Candidate> {
    if xs == [] then [] else InsertByScore(xs[0], SortDesc(xs[1..]))
  }

  /** Scores never increase along `s`. */
  predicate Descending(s: seq<Candidate>) {
    forall i, j :: 0 <= i < j < |s| ==> s[i].score >= s[j].score
  }

  /** The candidates of `s` scoring exactly `v`, in order. */
  function WithScore(s: seq<Candidate>, v: real): seq<Candidate> {
    if s == [] then []
    else (if s[0].score == v then [s[0]] else []) + WithScore(s[1..], v)
  }

  lemma {:induction false} InsertByScorePerm(x: Candidate, s: seq<Candidate>)
    ensures multiset(InsertByScore(x, s)) == multiset(s) + multiset{x}
  {
    if s != [] && s[0].score > x.score {
      InsertByScorePerm(x, s[1..]);
      assert s == [s[0]] + s[1..];
    }
  }

  lemma {:induction false} InsertByScoreOrder(x: Candidate, s: seq<Candidate>)
    requires Descending(s)
    ensures Descending(InsertByScore(x, s))
  {
    var r := InsertByScore(x, s);
    if s != [] && s[0].score > x.score {
      var t := InsertByScore(x, s[1..]);
      assert r == [s[0]] + t;
      assert Descending(s[1..]) by {
        forall i, j | 0 <= i < j < |s[1..]|
          ensures s[1..][i].score >= s[1..][j].score
        {
          assert s[1..][i] == s[i + 1] && s[1..][j] == s[j + 1];
        }
      }
      InsertByScoreOrder(x, s[1..]);
      InsertByScoreBound(x, s[1..], s[0].score);
      forall i, j | 0 <= i < j < |r|
        ensures r[i].score >= r[j].score
      {
        assert r[j] == t[j - 1];
        if i > 0 {
          assert r[i] == t[i - 1];
        }
      }
    } else {
      assert r == [x] + s;
      forall i, j | 0 <= i < j < |r|
        ensures r[i].score >= r[j].score
      {
        assert r[j] == s[j - 1];
        if i > 0 {
          assert r[i] == s[i - 1];
        } else if j > 1 {
          assert s[0].score >= s[j - 1].score;
        }
      }
    }
  }

  /** Inserting keeps every score under a bound that holds for all. */
  lemma {:induction false} InsertByScoreBound(x: Candidate, s: seq<Candidate>, b: real)
    requires x.score <= b
    requires forall i :: 0 <= i < |s| ==> s[i].score <= b
    ensures forall i :: 0 <= i < |InsertByScore(x, s)| ==> InsertByScore(x, s)[i].score <= b
  {
    if s != [] && s[0].score > x.score {
      var t := InsertByScore(x, s[1..]);
      InsertByScoreBound(x, s[1..], b);
      assert InsertByScore(x, s) == [s[0]] + t;
    } else {
      assert InsertByScore(x, s) == [x] + s;
    }
  }

  /** Inserting keeps the order of the candidates of each score. */
  lemma {:induction false} InsertByScoreStable(x: Candidate, s: seq<Candidate>, v: real)
    ensures WithScore(InsertByScore(x, s), v) == (if x.score == v then [x] else []) + WithScore(s, v)
  {
    if s != [] && s[0].score > x.score {
      var t := InsertByScore(x, s[1..]);
      InsertByScoreStable(x, s[1..], v);
      assert InsertByScore(x, s) == [s[0]] + t;
      WithScoreCons(s[0], t, v);
      WithScoreCons(s[0], s[1..], v);
      assert s == [s[0]] + s[1..];
    } else {
      assert InsertByScore(x, s) == [x] + s;
      WithScoreCons(x, s, v);
    }
  }

  lemma WithScoreCons(x: Candidate, s: seq<Candidate>, v: real)
    ensures WithScore([x] + s, v) == (if x.score == v then [x] else []) + WithScore(s, v)
  {
    assert ([x] + s)[1..] == s;
  }

  /** The ranking is a permutation of the candidates, by descending score,
      and stable: candidates with equal scores keep their relative order. */
  lemma SortDescSpec(xs: seq<Candidate>)
    ensures multiset(SortDesc(xs)) == multiset(xs)
    ensures Descending(SortDesc(xs))
    ensures forall v :: WithScore(SortDesc(xs), v) == WithScore(xs, v)
  {
    SortDescPerm(xs);
    SortDescOrder(xs);
    forall v
      ensures WithScore(SortDesc(xs), v) == WithScore(xs, v)
    {
      SortDescStable(xs, v);
    }
  }

  lemma {:induction false} SortDescPerm(xs: seq<Candidate>)
    ensures multiset(SortDesc(xs)) == multiset(xs)
  {
    if xs != [] {
      SortDescPerm(xs[1..]);
      InsertByScorePerm(xs[0], SortDesc(xs[1..]));
      assert xs == [xs[0]] + xs[1..];
    }
  }

  lemma {:induction false} SortDescOrder(xs: seq<Candidate>)
    ensures Descending(SortDesc(xs))
  {
    if xs != [] {
      SortDescOrder(xs[1..]);
      InsertByScoreOrder(xs[0], SortDesc(xs[1..]));
    }
  }

  lemma {:induction false} SortDescStable(xs: seq<Candidate>, v: real)
    ensures WithScore(SortDesc(xs), v) == WithScore(xs, v)
  {
    if xs != [] {
      SortDescStable(xs[1..], v);
      InsertByScoreStable(xs[0], SortDesc(xs[1..]), v);
      WithScoreCons(xs[0], xs[1..], v);
      assert xs == [xs[0]] + xs[1..];
    }
  }

  /** The divisions present in `s`. */
  function Divisions(s: seq<Candidate>): set<char> {
    set c | c in s :: Division(c)
  }

  /** The first candidate of division `d` in `s`. */
  function FirstOfDivision(s: seq<Candidate>, d: char): Option<Candidate> {
    if s == [] then None
    else if Division(s[0]) == d then Some(s[0])
    else FirstOfDivision(s[1..], d)
  }

  /** The candidates the diversity pass files under their division: the
      first one met of each division (`by_division` holds lists of at most
      one), in the order their divisions were first met. */
  function Leaders(ranked: seq<Candidate>): seq<Candidate> {
    if ranked == [] then []
    else
      var l := Leaders(ranked[..|ranked| - 1]);
      var c := ranked[|ranked| - 1];
      if Division(c) in Divisions(l) then l else l + [c]
  }

  /** The diversity pass over the ranked candidates; `seen` holds the keys
      of `by_division`, `leaders` the concatenation of its values. */
  method DiversityPass(ranked: seq<Candidate>) returns (leaders: seq<Candidate>)
    ensures leaders == Leaders(ranked)
  {
    leaders := [];
    var seen: set<char> := {};
    for k := 0 to |ranked|
      invariant leaders == Leaders(ranked[..k])
      invariant seen == Divisions(leaders)
    {
      assert ranked[..k + 1][..k] == ranked[..k];
      var c := ranked[k];
      var division := if c.notation != "" then c.notation[0] else '0';
      if division !in seen {
        seen := seen + {division};
        leaders := leaders + [c];
      }
    }
    assert ranked[..|ranked|] == ranked;
  }

  lemma {:induction false} FirstOfDivisionSnoc(s: seq<Candidate>, c: Candidate, d: char)
    ensures FirstOfDivision(s + [c], d) ==
      if FirstOfDivision(s, d).Some? then FirstOfDivision(s, d)
      else if Division(c) == d then Some(c)
      else None
  {
    if s != [] && Division(s[0]) != d {
      assert (s + [c])[1..] == s[1..] + [c];
      FirstOfDivisionSnoc(s[1..], c, d);
    }
  }

  lemma {:induction false} FirstOfDivisionSome(s: seq<Candidate>, d: char)
    ensures FirstOfDivision(s, d).Some? <==> d in Divisions(s)
    ensures FirstOfDivision(s, d).Some? ==>
      FirstOfDivision(s, d).value in s && Division(FirstOfDivision(s, d).value) == d
  {
    if s != [] {
      FirstOfDivisionSome(s[1..], d);
      assert s == [s[0]] + s[1..];
      assert Divisions(s) == {Division(s[0])} + Divisions(s[1..]);
    }
  }

  /** The leaders are the first candidate of each division present, one per
      division, taken from the ranking in its order. */
  lemma LeadersSpec(ranked: seq<Candidate>)
    ensures forall i, j :: 0 <= i < j < |Leaders(ranked)| ==>
      Division(Leaders(ranked)[i]) != Division(Leaders(ranked)[j])
    ensures Divisions(Leaders(ranked)) == Divisions(ranked)
    ensures forall i :: 0 <= i < |Leaders(ranked)| ==>
      FirstOfDivision(ranked, Division(Leaders(ranked)[i])) == Some(Leaders(ranked)[i])
    ensures forall c :: c in Leaders(ranked) ==> c in ranked
    ensures Descending(ranked) ==> Descending(Leaders(ranked))
  {
    LeadersCover(ranked);
    LeadersFirst(ranked);
    if Descending(ranked) {
      LeadersDescending(ranked);
    }
  }

  /** One leader per division present, each taken from the ranking. */
  lemma {:induction false} LeadersCover(ranked: seq<Candidate>)
    ensures forall i, j :: 0 <= i < j < |Leaders(ranked)| ==>
      Division(Leaders(ranked)[i]) != Division(Leaders(ranked)[j])
    ensures Divisions(Leaders(ranked)) == Divisions(ranked)
    ensures forall c :: c in Leaders(ranked) ==> c in ranked
  {
    if ranked != [] {
      var rs, c := ranked[..|ranked| - 1], ranked[|ranked| - 1];
      assert ranked == rs + [c];
      LeadersCover(rs);
      var l0, l := Leaders(rs), Leaders(ranked);
      assert Divisions(ranked) == Divisions(rs) + {Division(c)};
      if Division(c) !in Divisions(l0) {
        assert l == l0 + [c];
        assert Divisions(l) == Divisions(l0) + {Division(c)};
        forall i, j | 0 <= i < j < |l|
          ensures Division(l[i]) != Division(l[j])
        {
          if j == |l0| {
            assert l[i] in l0;
          }
        }
      } else {
        var k :| k in l0 && Division(k) == Division(c);
      }
    }
  }

  /** Each leader is the first candidate of its division in the ranking. */
  lemma {:induction false} LeadersFirst(ranked: seq<Candidate>)
    ensures forall i :: 0 <= i < |Leaders(ranked)| ==>
      FirstOfDivision(ranked, Division(Leaders(ranked)[i])) == Some(Leaders(ranked)[i])
  {
    if ranked != [] {
      var rs, c := ranked[..|ranked| - 1], ranked[|ranked| - 1];
      assert ranked == rs + [c];
      LeadersFirst(rs);
      LeadersCover(rs);
      var l0, l := Leaders(rs), Leaders(ranked);
      forall i | 0 <= i < |l|
        ensures FirstOfDivision(ranked, Division(l[i])) == Some(l[i])
      {
        FirstOfDivisionSnoc(rs, c, Division(l[i]));
        FirstOfDivisionSome(rs, Division(l[i]));
        if i == |l0| {
          assert Division(c) !in Divisions(l0);
        } else {
          assert l[i] == l0[i];
        }
      }
    }
  }

  /** Leaders of a descending ranking descend too. */
  lemma {:induction false} LeadersDescending(ranked: seq<Candidate>)
    requires Descending(ranked)
    ensures Descending(Leaders(ranked))
  {
    if ranked != [] {
      var rs, c := ranked[..|ranked| - 1], ranked[|ranked| - 1];
      assert ranked == rs + [c];
      LeadersDescending(rs);
      LeadersCover(rs);
      var l0, l := Leaders(rs), Leaders(ranked);
      if Division(c) !in Divisions(l0) {
        assert l == l0 + [c];
        forall i, j | 0 <= i < j < |l|
          ensures l[i].score >= l[j].score
        {
          if j == |l0| {
            assert l[i] in rs;
          }
        }
      }
    }
  }

  /** The number of leaders is the number of divisions present. */
  lemma {:induction false} LeaderCount(s: seq<Candidate>)
    requires forall i, j :: 0 <= i < j < |s| ==> Division(s[i]) != Division(s[j])
    ensures |Divisions(s)| == |s|
  {
    if s != [] {
      var n := |s| - 1;
      LeaderCount(s[..n]);
      assert s == s[..n] + [s[n]];
      assert Divisions(s) == Divisions(s[..n]) + {Division(s[n])};
      assert Division(s[n]) !in Divisions(s[..n]);
    }
  }

  /** The best candidate of division `d`: the highest-scoring one, the
      earliest of them on a tie. */
  function BestOf(xs: seq<Candidate>, d: char): (r: Option<Candidate>)
    ensures r.None? <==> d !in Divisions(xs)
    ensures r.Some? ==> r.value in xs && Division(r.value) == d
    ensures r.Some? ==> forall c :: c in xs && Division(c) == d ==> c.score <= r.value.score
  {
    if xs == [] then None
    else
      var rest := BestOf(xs[1..], d);
      assert xs == [xs[0]] + xs[1..];
      assert Divisions(xs) == {Division(xs[0])} + Divisions(xs[1..]);
      if Division(xs[0]) != d then rest
      else if rest.None? || rest.value.score <= xs[0].score then Some(xs[0])
      else rest
  }

  /** Of the candidates of its division that tie with it, the best one comes
      first. */
  lemma {:induction false} BestOfEarliest(xs: seq<Candidate>, d: char, j: nat)
    requires j < |xs| && Division(xs[j]) == d
    requires BestOf(xs, d).Some? && xs[j].score == BestOf(xs, d).value.score
    ensures BestOf(xs, d).value in xs[..j + 1]
  {
    if j > 0 && xs[0] != BestOf(xs, d).value {
      assert xs[j] == xs[1..][j - 1];
      BestOfEarliest(xs[1..], d, j - 1);
      assert xs[..j + 1] == [xs[0]] + xs[1..][..j];
    }
  }

  lemma {:induction false} InsertFirstOfDivision(x: Candidate, s: seq<Candidate>, d: char)
    requires Descending(s)
    ensures FirstOfDivision(InsertByScore(x, s), d) ==
      if Division(x) != d then FirstOfDivision(s, d)
      else if FirstOfDivision(s, d).Some? && FirstOfDivision(s, d).value.score > x.score then FirstOfDivision(s, d)
      else Some(x)
  {
    FirstOfDivisionSome(s, d);
    if s == [] || s[0].score <= x.score {
      assert ([x] + s)[1..] == s;
    } else {
      assert ([s[0]] + InsertByScore(x, s[1..]))[1..] == InsertByScore(x, s[1..]);
      if Division(s[0]) != d {
        InsertFirstOfDivision(x, s[1..], d);
      }
    }
  }

  /** The leader of a division in the ranking is the division's best
      candidate. */
  lemma {:induction false} RankedFirstIsBest(xs: seq<Candidate>, d: char)
    ensures FirstOfDivision(SortDesc(xs), d) == BestOf(xs, d)
  {
    if xs != [] {
      RankedFirstIsBest(xs[1..], d);
      SortDescSpec(xs[1..]);
      InsertFirstOfDivision(xs[0], SortDesc(xs[1..]), d);
    }
  }

  /** `s[:n]` */
  function Take(s: seq<Candidate>, n: nat): (r: seq<Candidate>)
    ensures |r| == Min(n, |s|) && r == s[..|r|]
  {
    if n >= |s| then s else s[..n]
  }

  /** `[c for c in xs if c not in sel]` */
  function Without(xs: seq<Candidate>, sel: seq<Candidate>): (r: seq<Candidate>)
    ensures forall c :: c in r <==> c in xs && c !in sel
  {
    if xs == [] then []
    else
      assert xs == [xs[0]] + xs[1..];
      (if xs[0] in sel then [] else [xs[0]]) + Without(xs[1..], sel)
  }

  /** Step 7: the leaders while there is room, then the best of the other
      validated candidates to fill the remaining places. */
  function Select(topK: nat, leaders: seq<Candidate>, validated: seq<Candidate>): seq<Candidate> {
    var first := Take(leaders, topK);
    if |first| < topK then first + Take(SortDesc(Without(validated, first)), topK - |first|)
    else first
  }

  /** The two selection passes. */
  method SelectTopK(topK: nat, leaders: seq<Candidate>, validated: seq<Candidate>) returns (selected: seq<Candidate>)
    ensures selected == Select(topK, leaders, validated)
  {
    selected := [];
    for k := 0 to |leaders|
      invariant selected == Take(leaders[..k], topK)
    {
      if |selected| < topK {
        selected := selected + [leaders[k]];
      }
    }
    assert leaders[..|leaders|] == leaders;
    if |selected| < topK {
      var remaining := Without(validated, selected);
      remaining := SortDesc(remaining);
      selected := selected + Take(remaining, topK - |selected|);
    }
  }

  /** No candidate occurs twice in `s`. */
  predicate NoDup(s: seq<Candidate>) {
    forall i, j :: 0 <= i < j < |s| ==> s[i] != s[j]
  }

  function Elems(s: seq<Candidate>): set<Candidate> {
    set c | c in s
  }

  lemma {:induction false} NoDupSize(s: seq<Candidate>)
    requires NoDup(s)
    ensures |Elems(s)| == |s|
  {
    if s != [] {
      var n := |s| - 1;
      NoDupSize(s[..n]);
      assert s == s[..n] + [s[n]];
      assert Elems(s) == Elems(s[..n]) + {s[n]};
    }
  }

  lemma {:induction false} NoDupCount(s: seq<Candidate>, x: Candidate)
    requires NoDup(s)
    ensures multiset(s)[x] <= 1
  {
    if s != [] {
      NoDupCount(s[1..], x);
      assert s == [s[0]] + s[1..];
    }
  }

  lemma {:induction false} CountNoDup(s: seq<Candidate>)
    requires forall x :: multiset(s)[x] <= 1
    ensures NoDup(s)
  {
    if s != [] {
      assert s == [s[0]] + s[1..];
      assert forall x :: multiset(s[1..])[x] <= multiset(s)[x];
      CountNoDup(s[1..]);
      assert multiset(s) == multiset{s[0]} + multiset(s[1..]);
      assert multiset(s[1..])[s[0]] == 0;
    }
  }

  lemma {:induction false} WithoutNoDup(xs: seq<Candidate>, sel: seq<Candidate>)
    requires NoDup(xs)
    ensures NoDup(Without(xs, sel))
  {
    if xs != [] {
      assert xs == [xs[0]] + xs[1..];
      WithoutNoDup(xs[1..], sel);
      assert xs[0] !in xs[1..];
    }
  }

  /** With no duplicates anywhere, dropping the `sel` candidates from `xs`
      leaves `|xs| - |sel|` of them. */
  lemma WithoutSize(xs: seq<Candidate>, sel: seq<Candidate>)
    requires NoDup(xs) && NoDup(sel)
    requires forall c :: c in sel ==> c in xs
    ensures |Without(xs, sel)| == |xs| - |sel|
  {
    var w := Without(xs, sel);
    WithoutNoDup(xs, sel);
    NoDupSize(xs);
    NoDupSize(sel);
    NoDupSize(w);
    assert Elems(w) == Elems(xs) - Elems(sel);
    assert Elems(xs) * Elems(sel) == Elems(sel);
  }

  /** Distinct notations mean distinct candidates. */
  lemma DistinctNoDup(s: seq<Candidate>)
    requires DistinctCandidates(s)
    ensures NoDup(s)
    ensures forall i, c :: 0 <= i < |s| && c in s && c.notation == s[i].notation ==> c == s[i]
  {
  }

  /** What the leaders of a ranking of `v` are made of. */
  lemma LeadersOfRanking(v: seq<Candidate>)
    ensures forall c :: c in Leaders(SortDesc(v)) ==> c in v
    ensures NoDup(Leaders(SortDesc(v)))
    ensures Descending(Leaders(SortDesc(v)))
    ensures |Leaders(SortDesc(v))| == |Divisions(v)|
    ensures Divisions(Leaders(SortDesc(v))) == Divisions(v)
    ensures forall i :: 0 <= i < |Leaders(SortDesc(v))| ==>
      BestOf(v, Division(Leaders(SortDesc(v))[i])) == Some(Leaders(SortDesc(v))[i])
  {
    var r := SortDesc(v);
    var l := Leaders(r);
    SortDescSpec(v);
    LeadersSpec(r);
    LeaderCount(l);
    forall c | c in r
      ensures c in v
    {
      assert c in multiset(r);
    }
    forall c | c in v
      ensures c in r
    {
      assert c in multiset(v);
    }
    assert Divisions(r) == Divisions(v);
    forall i | 0 <= i < |l|
      ensures BestOf(v, Division(l[i])) == Some(l[i])
    {
      RankedFirstIsBest(v, Division(l[i]));
    }
  }

  /** Candidates drawn without repetition from a list with distinct
      notations have distinct notations. */
  lemma DistinctFrom(s: seq<Candidate>, v: seq<Candidate>)
    requires DistinctCandidates(v) && NoDup(s)
    requires forall c :: c in s ==> c in v
    ensures DistinctCandidates(s)
  {
    DistinctNoDup(v);
    forall i, j | 0 <= i < j < |s|
      ensures s[i].notation != s[j].notation
    {
      assert s[i] in v && s[j] in v;
    }
  }

  /** The backfill: candidates of `v` not among `first`, none twice. */
  lemma BackfillMembers(first: seq<Candidate>, v: seq<Candidate>, k: nat)
    requires NoDup(v)
    ensures NoDup(Take(SortDesc(Without(v, first)), k))
    ensures forall c :: c in Take(SortDesc(Without(v, first)), k) ==> c in v && c !in first
  {
    var w := Without(v, first);
    var r := SortDesc(w);
    SortDescSpec(w);
    WithoutNoDup(v, first);
    forall x
      ensures multiset(r)[x] <= 1
    {
      NoDupCount(w, x);
    }
    CountNoDup(r);
    forall c | c in r
      ensures c in v && c !in first
    {
      assert c in multiset(w);
    }
  }

  /** Every selected candidate is a validated one, and none is selected
      twice. */
  lemma SelectMembersOf(topK: nat, l: seq<Candidate>, v: seq<Candidate>)
    requires DistinctCandidates(v) && NoDup(l)
    requires forall c :: c in l ==> c in v
    ensures forall c :: c in Select(topK, l, v) ==> c in v
    ensures DistinctCandidates(Select(topK, l, v))
  {
    var first := Take(l, topK);
    var s := Select(topK, l, v);
    DistinctNoDup(v);
    if |first| < topK {
      var t := Take(SortDesc(Without(v, first)), topK - |first|);
      BackfillMembers(first, v, topK - |first|);
      assert s == first + t;
      forall i, j | 0 <= i < j < |s|
        ensures s[i] != s[j]
      {
        if j < |first| {
          assert s[i] == first[i] && s[j] == first[j];
        } else if i >= |first| {
          assert s[i] == t[i - |first|] && s[j] == t[j - |first|];
        } else {
          assert s[i] in first && s[j] in t;
        }
      }
    }
    DistinctFrom(s, v);
  }

  /** A sequence without duplicates drawn from another is no longer. */
  lemma NoDupSubsetSize(l: seq<Candidate>, v: seq<Candidate>)
    requires NoDup(v) && NoDup(l)
    requires forall c :: c in l ==> c in v
    ensures |l| <= |v|
  {
    NoDupSize(l);
    NoDupSize(v);
    var a, b := Elems(l), Elems(v);
    assert b == a + (b - a);
    assert a * (b - a) == {};
  }

  /** A duplicate-free part of `v` as long as `v` holds all of it. */
  lemma NoDupSubsetFull(l: seq<Candidate>, v: seq<Candidate>)
    requires NoDup(v) && NoDup(l)
    requires forall c :: c in l ==> c in v
    requires |l| == |v|
    ensures forall c :: c in v ==> c in l
  {
    NoDupSize(l);
    NoDupSize(v);
    var a, b := Elems(l), Elems(v);
    assert b == a + (b - a);
    assert a * (b - a) == {};
    assert b - a == {};
    forall c | c in v ensures c in l {
      assert c in b;
    }
  }

  lemma SelectLengthOf(topK: nat, l: seq<Candidate>, v: seq<Candidate>)
    requires NoDup(v) && NoDup(l)
    requires forall c :: c in l ==> c in v
    ensures |Select(topK, l, v)| == Min(topK, |v|)
  {
    var first := Take(l, topK);
    NoDupSubsetSize(l, v);
    if |first| < topK {
      assert first == l;
      WithoutSize(v, first);
      SortDescSpec(Without(v, first));
      assert |SortDesc(Without(v, first))| == |multiset(SortDesc(Without(v, first)))|;
    }
  }

  /** Appending the first `k` of a descending `r` that holds every other
      candidate of `v`: none of those left out outscores one appended. */
  lemma AppendBest(first: seq<Candidate>, r: seq<Candidate>, k: nat, v: seq<Candidate>)
    requires Descending(r)
    requires forall c :: c in v && c !in first ==> c in r
    ensures forall i, c :: |first| <= i < |first + Take(r, k)| && c in v && c !in first + Take(r, k) ==>
      c.score <= (first + Take(r, k))[i].score
    ensures forall i, j :: |first| <= i < j < |first + Take(r, k)| ==>
      (first + Take(r, k))[i].score >= (first + Take(r, k))[j].score
  {
    var t := Take(r, k);
    var s := first + t;
    var m := |first|;
    forall i, c | m <= i < |s| && c in v && c !in s
      ensures c.score <= s[i].score
    {
      var p :| 0 <= p < |r| && r[p] == c;
      assert s[i] == r[i - m];
    }
    forall i, j | m <= i < j < |s|
      ensures s[i].score >= s[j].score
    {
      assert s[i] == r[i - m] && s[j] == r[j - m];
    }
  }

  lemma SelectBackfillOf(topK: nat, l: seq<Candidate>, v: seq<Candidate>)
    ensures forall i, c :: Min(topK, |l|) <= i < |Select(topK, l, v)| && c in v && c !in Select(topK, l, v) ==>
      c.score <= Select(topK, l, v)[i].score
    ensures forall i, j :: Min(topK, |l|) <= i < j < |Select(topK, l, v)| ==>
      Select(topK, l, v)[i].score >= Select(topK, l, v)[j].score
    ensures forall i, c ::
      (&& Min(topK, |l|) <= i < |Select(topK, l, v)|
       && c in v && c !in Select(topK, l, v) && c.score == Select(topK, l, v)[i].score) ==>
        Precedes(v, Select(topK, l, v)[i], c)
  {
    SelectBoundaryTies(topK, l, v);
    var first := Take(l, topK);
    if |first| < topK {
      var w := Without(v, first);
      SortDescSpec(w);
      forall c | c in v && c !in first
        ensures c in SortDesc(w)
      {
        assert c in multiset(w);
      }
      AppendBest(first, SortDesc(w), topK - |first|, v);
    }
  }

  /** The backfill descends in score. */
  lemma SelectFillDescends(topK: nat, l: seq<Candidate>, v: seq<Candidate>)
    ensures forall i, j :: Min(topK, |l|) <= i < j < |Select(topK, l, v)| ==>
      Select(topK, l, v)[i].score >= Select(topK, l, v)[j].score
  {
    SelectBackfillOf(topK, l, v);
  }

  /** The leaders take the first places, as many as there is room for. */
  lemma SelectPrefix(topK: nat, l: seq<Candidate>, v: seq<Candidate>)
    ensures Min(topK, |l|) <= |Select(topK, l, v)|
    ensures forall i :: 0 <= i < Min(topK, |l|) ==> Select(topK, l, v)[i] == l[i]
  {
  }

  /** Leaders of a ranking of `v` that make it into the selection are the
      best of their division, one per division, in descending score. */
  lemma SelectLeaders(topK: nat, v: seq<Candidate>)
    ensures Min(topK, |Divisions(v)|) <= |Select(topK, Leaders(SortDesc(v)), v)|
    ensures forall i :: 0 <= i < Min(topK, |Divisions(v)|) ==>
      BestOf(v, Division(Select(topK, Leaders(SortDesc(v)), v)[i])) == Some(Select(topK, Leaders(SortDesc(v)), v)[i])
    ensures forall i, j :: 0 <= i < j < Min(topK, |Divisions(v)|) ==>
      && Division(Select(topK, Leaders(SortDesc(v)), v)[i]) != Division(Select(topK, Leaders(SortDesc(v)), v)[j])
      && Select(topK, Leaders(SortDesc(v)), v)[i].score >= Select(topK, Leaders(SortDesc(v)), v)[j].score
  {
    var r := SortDesc(v);
    var l := Leaders(r);
    LeadersOfRanking(v);
    LeadersSpec(r);
    SelectPrefix(topK, l, v);
  }

  /** With room for all leaders, the selection covers every division. */
  lemma SelectCoversDivisions(topK: nat, v: seq<Candidate>)
    requires topK >= |Divisions(v)|
    ensures Divisions(v) <= Divisions(Select(topK, Leaders(SortDesc(v)), v))
  {
    var l := Leaders(SortDesc(v));
    LeadersOfRanking(v);
    SelectCovers(topK, l, v);
  }

  lemma SelectCovers(topK: nat, l: seq<Candidate>, v: seq<Candidate>)
    requires topK >= |l|
    ensures Divisions(l) <= Divisions(Select(topK, l, v))
  {
    var s := Select(topK, l, v);
    SelectPrefix(topK, l, v);
    forall d | d in Divisions(l)
      ensures d in Divisions(s)
    {
      var c :| c in l && Division(c) == d;
      var i :| 0 <= i < |l| && l[i] == c;
      assert s[i] == c;
    }
  }

  /** `a` occurs before `b` in `s`. */
  predicate Precedes(s: seq<Candidate>, a: Candidate, b: Candidate) {
    exists p, q :: 0 <= p < q < |s| && s[p] == a && s[q] == b
  }

  /** The comprehension keeps the order of `xs`: what it lists first comes
      first in `xs`. */
  lemma {:induction false} WithoutKeepsOrder(xs: seq<Candidate>, sel: seq<Candidate>)
    ensures forall i, j :: 0 <= i < j < |Without(xs, sel)| ==>
      Precedes(xs, Without(xs, sel)[i], Without(xs, sel)[j])
  {
    if xs != [] {
      var t := xs[1..];
      WithoutKeepsOrder(t, sel);
      assert xs == [xs[0]] + t;
      ConsKeepsOrder(xs[0], t, xs[0] !in sel, Without(t, sel), xs, Without(xs, sel));
    }
  }

  /** `WithScore` holds exactly the candidates of `s` that score `v`. */
  lemma {:induction false} WithScoreMembers(s: seq<Candidate>, v: real)
    ensures forall c :: c in WithScore(s, v) <==> c in s && c.score == v
  {
    if s != [] {
      WithScoreMembers(s[1..], v);
      assert s == [s[0]] + s[1..];
    }
  }

  /** `WithScore` keeps the order of `s`. */
  lemma {:induction false} WithScoreKeepsOrder(s: seq<Candidate>, v: real)
    ensures forall i, j :: 0 <= i < j < |WithScore(s, v)| ==>
      Precedes(s, WithScore(s, v)[i], WithScore(s, v)[j])
  {
    if s != [] {
      var t := s[1..];
      WithScoreKeepsOrder(t, v);
      WithScoreMembers(t, v);
      assert s == [s[0]] + t;
      ConsKeepsOrder(s[0], t, s[0].score == v, WithScore(t, v), s, WithScore(s, v));
    }
  }

  /** One step of an order-keeping filter: `x`, kept or dropped, in front of
      an order-keeping selection `w` from `t`. */
  lemma ConsKeepsOrder(x: Candidate, t: seq<Candidate>, keep: bool, w: seq<Candidate>,
                        s: seq<Candidate>, r: seq<Candidate>)
    requires s == [x] + t && r == (if keep then [x] else []) + w
    requires forall c :: c in w ==> c in t
    requires forall i, j :: 0 <= i < j < |w| ==> Precedes(t, w[i], w[j])
    ensures forall i, j :: 0 <= i < j < |r| ==> Precedes(s, r[i], r[j])
  {
    var h := if keep then 1 else 0;
    forall i, j | 0 <= i < j < |r|
      ensures Precedes(s, r[i], r[j])
    {
      if i < h {
        assert r[j] == w[j - 1] && r[j] in t;
        var q :| 0 <= q < |t| && t[q] == r[j];
        assert s[0] == r[i] && s[q + 1] == r[j];
      } else {
        assert r[i] == w[i - h] && r[j] == w[j - h];
        var p, q :| 0 <= p < q < |t| && t[p] == w[i - h] && t[q] == w[j - h];
        assert s[p + 1] == t[p] && s[q + 1] == t[q];
      }
    }
  }

  /** Two candidates of score `v` keep their order in `WithScore(s, v)`. */
  lemma {:induction false} WithScoreOrderOf(s: seq<Candidate>, v: real, i: nat, j: nat)
    requires i < j < |s| && s[i].score == v && s[j].score == v
    ensures Precedes(WithScore(s, v), s[i], s[j])
  {
    var t := s[1..];
    var w := WithScore(t, v);
    var r := WithScore(s, v);
    assert s == [s[0]] + t;
    assert r == (if s[0].score == v then [s[0]] else []) + w;
    if i == 0 {
      WithScoreMembers(t, v);
      assert s[j] == t[j - 1] && s[j] in w;
      var q :| 0 <= q < |w| && w[q] == s[j];
      assert r[0] == s[i] && r[q + 1] == s[j];
    } else {
      WithScoreOrderOf(t, v, i - 1, j - 1);
      var p, q :| 0 <= p < q < |w| && w[p] == t[i - 1] && w[q] == t[j - 1];
      var h := if s[0].score == v then 1 else 0;
      assert r[p + h] == w[p] && r[q + h] == w[q];
    }
  }

  /** Candidates that tie in the ranking come in the order they had in `xs`. */
  lemma SortDescTies(xs: seq<Candidate>, i: nat, j: nat)
    requires i < j < |SortDesc(xs)| && SortDesc(xs)[i].score == SortDesc(xs)[j].score
    ensures Precedes(xs, SortDesc(xs)[i], SortDesc(xs)[j])
  {
    var s := SortDesc(xs);
    var v := s[i].score;
    WithScoreOrderOf(s, v, i, j);
    SortDescStable(xs, v);
    WithScoreKeepsOrder(xs, v);
    WithScoreMembers(xs, v);
    var w := WithScore(xs, v);
    var p, q :| 0 <= p < q < |w| && w[p] == s[i] && w[q] == s[j];
    assert Precedes(xs, w[p], w[q]);
  }

  /** Backfill candidates that tie on score come in the order of `v`. */
  lemma SelectBackfillTies(topK: nat, l: seq<Candidate>, v: seq<Candidate>)
    ensures forall i, j ::
      Min(topK, |l|) <= i < j < |Select(topK, l, v)| && Select(topK, l, v)[i].score == Select(topK, l, v)[j].score ==>
        Precedes(v, Select(topK, l, v)[i], Select(topK, l, v)[j])
  {
    var first := Take(l, topK);
    var s := Select(topK, l, v);
    var m := |first|;
    if m < topK {
      var w := Without(v, first);
      var r := SortDesc(w);
      WithoutKeepsOrder(v, first);
      forall i, j | m <= i < j < |s| && s[i].score == s[j].score
        ensures Precedes(v, s[i], s[j])
      {
        assert s[i] == r[i - m] && s[j] == r[j - m];
        SortDescTies(w, i - m, j - m);
        var p, q :| 0 <= p < q < |w| && w[p] == s[i] && w[q] == s[j];
        assert Precedes(v, w[p], w[q]);
      }
    }
  }

  /** A candidate left out at the cut that ties with a backfilled one comes
      after it in `v`: the stable sort keeps the order of the comprehension,
      and the slice takes the earlier one. */
  lemma SelectBoundaryTies(topK: nat, l: seq<Candidate>, v: seq<Candidate>)
    ensures forall i, c ::
      (&& Min(topK, |l|) <= i < |Select(topK, l, v)|
       && c in v && c !in Select(topK, l, v) && c.score == Select(topK, l, v)[i].score) ==>
        Precedes(v, Select(topK, l, v)[i], c)
  {
    var first := Take(l, topK);
    var s := Select(topK, l, v);
    var m := |first|;
    if m < topK {
      var w := Without(v, first);
      var r := SortDesc(w);
      SortDescPerm(w);
      WithoutKeepsOrder(v, first);
      forall i, c | m <= i < |s| && c in v && c !in s && c.score == s[i].score
        ensures Precedes(v, s[i], c)
      {
        assert c !in first;
        assert c in multiset(w);
        assert c in multiset(r);
        var q :| 0 <= q < |r| && r[q] == c;
        assert s[i] == r[i - m];
        assert i - m < q;
        SortDescTies(w, i - m, q);
        var p0, q0 :| 0 <= p0 < q0 < |w| && w[p0] == s[i] && w[q0] == c;
        assert Precedes(v, w[p0], w[q0]);
      }
    }
  }
}
