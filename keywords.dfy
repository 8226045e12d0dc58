/** Keyword extraction for the lexical search (`extract_keywords`): the
    title, description and subject terms of a record are joined with spaces,
    cut into runs of letters, lower-cased, filtered by length, de-duplicated,
    sorted and truncated to twenty. */
module Keywords {

  /** A record field that may hold one string or a list of strings. */
  datatype Field = Scalar(text: string) | Items(items: seq<string>)

  /** The metadata record the classifier reads. A missing string field is
      `""` and a missing list field is `Items([])`, which is what the code's
      `obj.get(key, default)` yields. */
  datatype Record = Record(
    title: string,
    description: string,
    subject: Field,
    creator: Field,
    relation: Field,
    coverage: string,
    date: string,
    language: string)

  const MaxKeywords: nat := 20

  /** The tokeniser's character class `[A-Za-zÄÖÜäöüß\-]`. */
  predicate IsWordChar(c: char) {
    || ('A' <= c <= 'Z') || ('a' <= c <= 'z')
    || c == '\U{C4}' || c == '\U{D6}' || c == '\U{DC}'
    || c == '\U{E4}' || c == '\U{F6}' || c == '\U{FC}' || c == '\U{DF}'
    || c == '-'
  }

  /** What a keyword may be made of: `a-z`, `äöüß` and `-`. */
  predicate IsKeywordChar(c: char) {
    || ('a' <= c <= 'z')
    || c == '\U{E4}' || c == '\U{F6}' || c == '\U{FC}' || c == '\U{DF}'
    || c == '-'
  }

  /** A maximal match of the tokeniser is a non-empty run of class characters. */
  predicate IsWord(t: string) {
    t != [] && forall i :: 0 <= i < |t| ==> IsWordChar(t[i])
  }

  /** `str.lower` on one character of the class (`ß` has no upper case
      partner and stays, as does `-`). */
  function Lower(c: char): (d: char)
    ensures IsWordChar(c) ==> IsKeywordChar(d)
    ensures IsKeywordChar(c) ==> d == c
  {
    if 'A' <= c <= 'Z' then (c as int + 32) as char
    else if c == '\U{C4}' then '\U{E4}'
    else if c == '\U{D6}' then '\U{F6}'
    else if c == '\U{DC}' then '\U{FC}'
    else c
  }

  function LowerWord(t: string): (u: string)
    ensures |u| == |t|
    ensures IsWord(t) ==> forall i :: 0 <= i < |u| ==> IsKeywordChar(u[i])
  {
    seq(|t|, i requires 0 <= i < |t| => Lower(t[i]))
  }

  /** The length of the run of class characters that starts `s`. */
  function RunLength(s: string): (n: nat)
    ensures n <= |s|
    ensures forall i :: 0 <= i < n ==> IsWordChar(s[i])
    ensures n < |s| ==> !IsWordChar(s[n])
  {
    if s == [] || !IsWordChar(s[0]) then 0 else 1 + RunLength(s[1..])
  }

  /** `re.findall(r"[A-Za-zÄÖÜäöüß\-]+", s)`: the maximal runs, left to right. */
  function Tokens(s: string): (ts: seq<string>)
    ensures forall k :: 0 <= k < |ts| ==> IsWord(ts[k])
    decreases |s|
  {
    if s == [] then []
    else if !IsWordChar(s[0]) then Tokens(s[1..])
    else
      var n := RunLength(s);
      [s[..n]] + Tokens(s[n..])
  }

  /** `" ".join(parts)` */
  function JoinSpace(parts: seq<string>): string {
    if parts == [] then ""
    else if |parts| == 1 then parts[0]
    else parts[0] + " " + JoinSpace(parts[1..])
  }

  /** `[t.lower() for t in ts if len(t) > 2]` */
  function Terms(ts: seq<string>): (us: seq<string>)
    ensures |us| <= |ts|
  {
    if ts == [] then []
    else (if |ts[0]| > 2 then [LowerWord(ts[0])] else []) + Terms(ts[1..])
  }

  /** The text parts in the order the code collects them: a truthy title,
      a truthy description, then the subject list as it is, or a truthy
      scalar subject. */
  function TextParts(r: Record): seq<string> {
    (if r.title != "" then [r.title] else [])
    + (if r.description != "" then [r.description] else [])
    + match r.subject
      case Items(xs) => xs
      case Scalar(s) => if s != "" then [s] else []
  }

  /** Python's `<` on strings: lexicographic by code point, a proper prefix first. */
  predicate Before(a: string, b: string) {
    if a == [] then b != []
    else if b == [] then false
    else a[0] < b[0] || (a[0] == b[0] && Before(a[1..], b[1..]))
  }

  /** Strictly ascending, neighbour by neighbour. */
  predicate Ascending(s: seq<string>) {
    forall i :: 0 < i < |s| ==> Before(s[i - 1], s[i])
  }

  /** Insertion into a strictly ascending list, dropping a duplicate. */
  function Insert(x: string, s: seq<string>): seq<string> {
    if s == [] then [x]
    else if x == s[0] then s
    else if Before(x, s[0]) then [x] + s
    else [s[0]] + Insert(x, s[1..])
  }

  /** `sorted(set(xs))` */
  function SortedSet(xs: seq<string>): seq<string> {
    if xs == [] then [] else Insert(xs[0], SortedSet(xs[1..]))
  }

  /** `extract_keywords(obj)` */
  function ExtractKeywords(r: Record): seq<string> {
    var all := SortedSet(Terms(Tokens(JoinSpace(TextParts(r)))));
    if |all| <= MaxKeywords then all else all[..MaxKeywords]
  }

  // ---------------------------------------------------------------------
  // The order on strings

  lemma {:induction false} BeforeIrreflexive(a: string)
    ensures !Before(a, a)
  {
    if a != [] { BeforeIrreflexive(a[1..]); }
  }

  lemma {:induction false} BeforeTransitive(a: string, b: string, c: string)
    requires Before(a, b) && Before(b, c)
    ensures Before(a, c)
  {
    if a != [] && b != [] && c != [] && a[0] == b[0] == c[0] {
      BeforeTransitive(a[1..], b[1..], c[1..]);
    }
  }

  lemma {:induction false} BeforeTotal(a: string, b: string)
    ensures a == b || Before(a, b) || Before(b, a)
  {
    if a != [] && b != [] && a[0] == b[0] {
      BeforeTotal(a[1..], b[1..]);
      if a[1..] == b[1..] {
        assert a == [a[0]] + a[1..] && b == [b[0]] + b[1..];
      }
    }
  }

  lemma BeforeAsymmetric(a: string, b: string)
    requires Before(a, b)
    ensures !Before(b, a)
  {
    if Before(b, a) {
      BeforeTransitive(a, b, a);
      BeforeIrreflexive(a);
    }
  }

  /** A neighbour-wise ascending list is ascending between any two positions,
      so it has no duplicates. */
  lemma {:induction false} AscendingPairs(s: seq<string>)
    requires Ascending(s)
    ensures forall i, j :: 0 <= i < j < |s| ==> Before(s[i], s[j])
    ensures forall i, j :: 0 <= i < j < |s| ==> s[i] != s[j]
  {
    if |s| > 1 {
      AscendingPairs(s[1..]);
      forall i, j | 0 <= i < j < |s| ensures Before(s[i], s[j]) && s[i] != s[j] {
        if i > 0 {
          assert Before(s[1..][i - 1], s[1..][j - 1]);
        } else if j > 1 {
          assert Before(s[1..][0], s[1..][j - 1]);
          BeforeTransitive(s[0], s[1], s[j]);
        }
        if s[i] == s[j] { BeforeIrreflexive(s[i]); }
      }
    }
  }

  lemma {:induction false} InsertSpec(x: string, s: seq<string>)
    requires Ascending(s)
    ensures Ascending(Insert(x, s))
    ensures forall w :: w in Insert(x, s) <==> w == x || w in s
    ensures Insert(x, s) != [] && (Insert(x, s)[0] == x || Insert(x, s)[0] == s[0])
  {
    if s != [] && x != s[0] && !Before(x, s[0]) {
      InsertSpec(x, s[1..]);
      BeforeTotal(x, s[0]);
      var t := Insert(x, s[1..]);
      assert Insert(x, s) == [s[0]] + t;
      assert Before(s[0], t[0]);
    }
  }

  /** `sorted(set(xs))` is strictly ascending and holds exactly the elements of `xs`. */
  lemma {:induction false} SortedSetSpec(xs: seq<string>)
    ensures Ascending(SortedSet(xs))
    ensures forall w :: w in SortedSet(xs) <==> w in xs
  {
    if xs != [] {
      SortedSetSpec(xs[1..]);
      InsertSpec(xs[0], SortedSet(xs[1..]));
      assert xs == [xs[0]] + xs[1..];
    }
  }

  // ---------------------------------------------------------------------
  // Tokenising joined text

  lemma {:induction false} RunLengthStops(a: string, rest: string)
    requires rest == [] || !IsWordChar(rest[0])
    ensures RunLength(a + rest) == RunLength(a)
  {
    if a != [] && IsWordChar(a[0]) {
      assert (a + rest)[1..] == a[1..] + rest;
      RunLengthStops(a[1..], rest);
    }
  }

  /** A space separates: the tokens of `a + " " + b` are those of `a` followed by those of `b`. */
  lemma {:induction false} TokensSplitAtSpace(a: string, b: string)
    ensures Tokens(a + " " + b) == Tokens(a) + Tokens(b)
    decreases |a|
  {
    var s := a + " " + b;
    if a == [] {
      assert s[1..] == b;
    } else if !IsWordChar(a[0]) {
      assert s[1..] == a[1..] + " " + b;
      TokensSplitAtSpace(a[1..], b);
    } else {
      RunLengthStops(a, " " + b);
      assert s == a + (" " + b);
      var n := RunLength(a);
      assert s[..n] == a[..n];
      assert s[n..] == a[n..] + " " + b;
      TokensSplitAtSpace(a[n..], b);
    }
  }

  /** The terms of each part, one part after another. */
  function PartTerms(parts: seq<string>): seq<string> {
    if parts == [] then [] else Terms(Tokens(parts[0])) + PartTerms(parts[1..])
  }

  lemma {:induction false} TermsAppend(xs: seq<string>, ys: seq<string>)
    ensures Terms(xs + ys) == Terms(xs) + Terms(ys)
  {
    if xs != [] {
      assert (xs + ys)[1..] == xs[1..] + ys;
      TermsAppend(xs[1..], ys);
    } else {
      assert xs + ys == ys;
    }
  }

  /** Joining with spaces neither merges nor splits terms: the terms of the
      joined text are the terms of the parts, in order. */
  lemma {:induction false} JoinedTerms(parts: seq<string>)
    ensures Terms(Tokens(JoinSpace(parts))) == PartTerms(parts)
  {
    if |parts| == 1 {
      assert PartTerms(parts[1..]) == [];
    } else if |parts| > 1 {
      TokensSplitAtSpace(parts[0], JoinSpace(parts[1..]));
      TermsAppend(Tokens(parts[0]), Tokens(JoinSpace(parts[1..])));
      JoinedTerms(parts[1..]);
    }
  }

  lemma {:induction false} PartTermsMember(parts: seq<string>, w: string)
    ensures w in PartTerms(parts) <==> exists i :: 0 <= i < |parts| && w in Terms(Tokens(parts[i]))
  {
    if parts != [] {
      PartTermsMember(parts[1..], w);
      if w in Terms(Tokens(parts[0])) {
        assert 0 < |parts| && w in Terms(Tokens(parts[0]));
      }
      if exists i :: 1 <= i < |parts| && w in Terms(Tokens(parts[i])) {
        var i :| 1 <= i < |parts| && w in Terms(Tokens(parts[i]));
        assert w in Terms(Tokens(parts[1..][i - 1]));
      }
    }
  }

  lemma {:induction false} TermsShape(ts: seq<string>)
    requires forall k :: 0 <= k < |ts| ==> IsWord(ts[k])
    ensures forall w :: w in Terms(ts) ==> |w| > 2 && forall i :: 0 <= i < |w| ==> IsKeywordChar(w[i])
  {
    if ts != [] { TermsShape(ts[1..]); }
  }

  /** A term of the record: a lower-cased token longer than two characters of
      one of its collected text parts. */
  ghost predicate IsTermOf(r: Record, w: string) {
    exists i :: 0 <= i < |TextParts(r)| && w in Terms(Tokens(TextParts(r)[i]))
  }

  /** The keywords are strictly ascending (hence duplicate-free), at most twenty,
      each longer than two characters and made of `a-z`, `äöüß` and `-`; each is
      a term of the title, the description or a subject entry, and a term that is
      not a keyword was cut by the limit: twenty keywords all sort before it. */
  lemma KeywordsSpec(r: Record)
    ensures var k := ExtractKeywords(r);
      && Ascending(k)
      && (forall i, j :: 0 <= i < j < |k| ==> k[i] != k[j])
      && |k| <= MaxKeywords
      && (forall w :: w in k ==> |w| > 2 && forall i :: 0 <= i < |w| ==> IsKeywordChar(w[i]))
      && (forall w :: w in k ==> IsTermOf(r, w))
      && (forall w :: IsTermOf(r, w) && w !in k ==>
            |k| == MaxKeywords && forall i :: 0 <= i < |k| ==> Before(k[i], w))
  {
    KeywordsOrdered(r);
    KeywordsSound(r);
    KeywordsComplete(r);
  }

  lemma KeywordsOrdered(r: Record)
    ensures var k := ExtractKeywords(r);
      && Ascending(k)
      && (forall i, j :: 0 <= i < j < |k| ==> k[i] != k[j])
      && |k| <= MaxKeywords
      && (forall w :: w in k ==> |w| > 2 && forall i :: 0 <= i < |w| ==> IsKeywordChar(w[i]))
  {
    var terms := Terms(Tokens(JoinSpace(TextParts(r))));
    var all := SortedSet(terms);
    var k := ExtractKeywords(r);
    SortedSetSpec(terms);
    AscendingPairs(all);
    TermsShape(Tokens(JoinSpace(TextParts(r))));
    assert k == all[..|k|];
  }

  lemma KeywordsSound(r: Record)
    ensures forall w :: w in ExtractKeywords(r) ==> IsTermOf(r, w)
  {
    var terms := Terms(Tokens(JoinSpace(TextParts(r))));
    var all := SortedSet(terms);
    var k := ExtractKeywords(r);
    SortedSetSpec(terms);
    JoinedTerms(TextParts(r));
    assert k == all[..|k|];
    forall w | w in k ensures IsTermOf(r, w) {
      PartTermsMember(TextParts(r), w);
    }
  }

  lemma KeywordsComplete(r: Record)
    ensures var k := ExtractKeywords(r);
      forall w :: IsTermOf(r, w) && w !in k ==>
        |k| == MaxKeywords && forall i :: 0 <= i < |k| ==> Before(k[i], w)
  {
    var terms := Terms(Tokens(JoinSpace(TextParts(r))));
    var all := SortedSet(terms);
    var k := ExtractKeywords(r);
    SortedSetSpec(terms);
    AscendingPairs(all);
    JoinedTerms(TextParts(r));
    assert k == all[..|k|];
    forall w | IsTermOf(r, w) && w !in k
      ensures |k| == MaxKeywords && forall i :: 0 <= i < |k| ==> Before(k[i], w)
    {
      PartTermsMember(TextParts(r), w);
      var j :| 0 <= j < |all| && all[j] == w;
      assert j >= |k|;
    }
  }

  /** Tokenising undoes joining with spaces for words of the class. */
  lemma {:induction false} TokensOfJoinedWords(words: seq<string>)
    requires forall k :: 0 <= k < |words| ==> IsWord(words[k])
    ensures Tokens(JoinSpace(words)) == words
  {
    if words != [] {
      var w := words[0];
      assert RunLength(w) == |w| by { RunLengthStops(w, []); RunLengthWhole(w); }
      assert w[|w|..] == [] && w[..|w|] == w;
      assert Tokens([]) == [];
      if |words| > 1 {
        TokensSplitAtSpace(w, JoinSpace(words[1..]));
        TokensOfJoinedWords(words[1..]);
      }
    }
  }

  lemma {:induction false} RunLengthWhole(w: string)
    requires forall i :: 0 <= i < |w| ==> IsWordChar(w[i])
    ensures RunLength(w) == |w|
  {
    if w != [] { RunLengthWhole(w[1..]); }
  }
}
