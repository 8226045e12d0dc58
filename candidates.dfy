/** The records that flow through `classify_object`, from the raw candidates
    the two sources hand over to the subject records it returns, and the
    rounding of scores to two decimal places. */
module Candidates {
  import opened JsonValues

  /** A candidate as a source hands it over: the lexical search gives
      `notation`, `label` (here `plainLabel`) and `score`; the generative suggester gives
      `notation`, `label_de` and `label_en`. A missing key is `Null` (a
      missing or empty notation is `""`, a missing score `None`). */
  datatype RawCandidate = RawCandidate(
    notation: string,
    labelDe: Json,
    plainLabel: Json,
    labelEn: Json,
    score: Option<real>)

  /** The configuration the classifier reads once at construction. */
  datatype Config = Config(topK: nat, validate: bool)

  /** An entry of the candidate pool, keyed by its notation. */
  datatype PoolEntry = PoolEntry(notation: string, score: real, labelDe: Json, labelEn: Json)

  /** A pool entry that passed the validation step and carries its URI. */
  datatype Candidate = Candidate(notation: string, score: real, labelDe: Json, labelEn: Json, uri: string)

  /** One record of the returned subject list. */
  datatype Subject = Subject(
    valueURI: string,
    notation: string,
    prefDe: Json,
    prefEn: Json,
    confidence: real,
    scheme: string)

  /** The score assumed for a candidate that carries none. */
  const DefaultScore: real := 0.7

  const Scheme: string := "Iconclass"

  /** `float(candidate.get("score", 0.7))` */
  function ScoreOf(c: RawCandidate): real {
    if c.score.Some? then c.score.value else DefaultScore
  }

  function Max(a: real, b: real): real {
    if a >= b then a else b
  }

  function Min(a: int, b: int): int {
    if a <= b then a else b
  }

  function Abs(x: real): real {
    if x >= 0.0 then x else -x
  }

  /** The division of a candidate: the first character of its notation
      (`"0"` for an empty one, which the pool never holds). */
  function Division(c: Candidate): char {
    if c.notation != "" then c.notation[0] else '0'
  }

  /** Rounding to the nearest integer, a tie going to the even neighbour. */
  function RoundHalfEven(y: real): int {
    var f := y.Floor;
    var d := y - f as real;
    if d < 0.5 then f
    else if d > 0.5 then f + 1
    else if f % 2 == 0 then f
    else f + 1
  }

  /** `round(x, 2)`: the multiple of 0.01 nearest to `x`, a tie going to the
      even multiple. */
  function Round2(x: real): (r: real)
    ensures (r * 100.0).Floor as real == r * 100.0
    ensures -0.005 <= r - x <= 0.005
    ensures x >= 0.0 ==> r >= 0.0
    ensures x * 100.0 - (x * 100.0).Floor as real == 0.5 ==> (r * 100.0).Floor % 2 == 0
  {
    var y := x * 100.0;
    var n := RoundHalfEven(y);
    RoundHalfEvenClose(y);
    assert (n as real / 100.0) * 100.0 == n as real;
    assert n as real / 100.0 - x == (n as real - y) / 100.0;
    n as real / 100.0
  }

  lemma RoundHalfEvenClose(y: real)
    ensures -0.5 <= RoundHalfEven(y) as real - y <= 0.5
    ensures y - y.Floor as real == 0.5 ==> RoundHalfEven(y) % 2 == 0
  {
  }

  /** No integer is closer to `y` than `RoundHalfEven(y)`. */
  lemma RoundHalfEvenNearest(y: real, k: int)
    ensures Abs(RoundHalfEven(y) as real - y) <= Abs(k as real - y)
  {
    var f := y.Floor;
    assert f as real <= y < f as real + 1.0;
    assert k <= f || k >= f + 1;
  }

  /** No multiple of 0.01 is closer to `x` than `Round2(x)`. */
  lemma Round2Nearest(x: real, k: int)
    ensures Abs(Round2(x) - x) <= Abs(k as real / 100.0 - x)
  {
    var y := x * 100.0;
    var n := RoundHalfEven(y);
    RoundHalfEvenNearest(y, k);
    assert Round2(x) - x == (n as real - y) / 100.0;
    assert k as real / 100.0 - x == (k as real - y) / 100.0;
  }

  /** Rounding keeps the order of scores (ties may merge). */
  lemma Round2Monotone(x: real, y: real)
    requires x <= y
    ensures Round2(x) <= Round2(y)
  {
    var fx, fy := (x * 100.0).Floor, (y * 100.0).Floor;
    assert fx <= fy;
  }

  /** A score that already has two decimals is kept as it is. */
  lemma Round2Exact(k: int)
    ensures Round2(k as real / 100.0) == k as real / 100.0
  {
    assert (k as real / 100.0) * 100.0 == k as real;
  }
}
