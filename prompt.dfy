/** The text side of the generative suggester: the classification prompt
    (`build_iconclass_prompt`) and the span of the reply that is handed to
    the JSON parser (`get_llm_candidates`). */
module Prompt {
  import opened JsonValues
  import opened Keywords
  import opened Text

  /** `", ".join(items)` */
  function JoinComma(xs: seq<string>): string {
    if xs == [] then ""
    else if |xs| == 1 then xs[0]
    else xs[0] + ", " + JoinComma(xs[1..])
  }

  /** How the prompt renders a list-or-scalar field: a list is joined with
      `", "`, a truthy scalar is used as it is, a falsy one gives `""`. */
  function FieldText(f: Field): string {
    match f
    case Items(xs) => JoinComma(xs)
    case Scalar(s) => s
  }

  /** Index of the first `", "` in `s`, or `|s|` when there is none. */
  function SeparatorAt(s: string): (i: nat)
    ensures i <= |s|
    ensures i < |s| ==> i + 1 < |s| && s[i] == ',' && s[i + 1] == ' '
    ensures forall k :: 0 <= k < i && k + 1 < |s| ==> !(s[k] == ',' && s[k + 1] == ' ')
  {
    if |s| < 2 then |s|
    else if s[0] == ',' && s[1] == ' ' then 0
    else 1 + SeparatorAt(s[1..])
  }

  /** `s.split(", ")`, the reading a consumer of the prompt would apply. */
  function SplitComma(s: string): seq<string>
    decreases |s|
  {
    var i := SeparatorAt(s);
    if i == |s| then [s] else [s[..i]] + SplitComma(s[i + 2..])
  }

  /** Joining a non-empty list whose entries contain no comma can be undone:
      the rendered field lists exactly the entries, in order. */
  lemma {:induction false} SplitJoinComma(xs: seq<string>)
    requires xs != []
    requires forall k :: 0 <= k < |xs| ==> ',' !in xs[k]
    ensures SplitComma(JoinComma(xs)) == xs
  {
    var x := xs[0];
    if |xs| == 1 {
      assert SeparatorAt(x) == |x|;
    } else {
      var rest := JoinComma(xs[1..]);
      var s := x + ", " + rest;
      var i := SeparatorAt(s);
      assert s[|x|] == ',' && s[|x| + 1] == ' ';
      assert i == |x|;
      assert s[..i] == x;
      assert s[i + 2..] == rest;
      SplitJoinComma(xs[1..]);
    }
  }

  const Instructions: string :=
    "You assign up to 10 **Iconclass** notations for this record.\n"
    + "Respond as JSON array of objects:\n"
    + "[{\"notation\":\"\U{2026}\",\"label_de\":\"\U{2026}\",\"label_en\":\"\U{2026}\",\"why\":\"\U{2026}\"}]\n"
    + "Use valid Iconclass codes (e.g., 25F, 31A, 52D1). Prefer German labels when possible.\n"
    + "\n"

  /** `build_iconclass_prompt(obj)` */
  function BuildPrompt(r: Record): (p: string)
    ensures |PromptTail(r)| < |p| && p[|p| - |PromptTail(r)|..] == PromptTail(r)
  {
    Instructions
    + "title: " + r.title
    + "\ndescription: " + r.description
    + PromptTail(r)
  }

  /** The prompt from the line break after the description on. */
  function PromptTail(r: Record): (t: string)
    ensures t != [] && t[0] == '\n'
  {
    "\nsubject: " + FieldText(r.subject)
    + "\ncreator: " + FieldText(r.creator)
    + "\nrelation: " + FieldText(r.relation)
    + "\nera/date: " + r.coverage + " " + r.date
    + "\nlanguage: " + r.language
  }

  /** The prompt opens with the fixed instructions, then the line holding the
      record's title as it is, then the line holding its description. */
  lemma PromptOpening(r: Record)
    ensures var p := BuildPrompt(r);
      var t := |Instructions| + 7;
      var d := t + |r.title| + 14;
      && p[..|Instructions|] == Instructions
      && t + |r.title| <= |p| && p[t..t + |r.title|] == r.title
      && d + |r.description| < |p| && p[d..d + |r.description|] == r.description
      && p[d + |r.description|] == '\n'
  {
    Pieces(Instructions, "title: ", r.title, "\ndescription: ", r.description, PromptTail(r));
  }

  /** The tail holds, line by line, the labelled subject, creator and
      relation fields, the coverage and date separated by a space, and the
      language, each exactly as `FieldText` or the record renders it. */
  lemma PromptFields(r: Record)
    ensures var t := PromptTail(r);
      var s, c, l := FieldText(r.subject), FieldText(r.creator), FieldText(r.relation);
      var i := 10 + |s|;
      var j := i + 10 + |c|;
      var k := j + 11 + |l|;
      var m := k + 12 + |r.coverage| + |r.date|;
      && m + 11 + |r.language| == |t|
      && t[..10] == "\nsubject: " && t[10..i] == s
      && t[i..i + 10] == "\ncreator: " && t[i + 10..j] == c
      && t[j..j + 11] == "\nrelation: " && t[j + 11..k] == l
      && t[k..k + 11] == "\nera/date: " && t[k + 11..k + 11 + |r.coverage|] == r.coverage
      && t[k + 11 + |r.coverage|] == ' ' && t[k + 12 + |r.coverage|..m] == r.date
      && t[m..m + 11] == "\nlanguage: " && t[m + 11..] == r.language
  {
    Lines(PromptTail(r), "\nsubject: ", FieldText(r.subject), "\ncreator: ", FieldText(r.creator),
      "\nrelation: ", FieldText(r.relation), "\nera/date: ", r.coverage, r.date,
      "\nlanguage: ", r.language);
  }

  /** Where each piece of the tail lies, for any labels of the tail's lengths. */
  lemma Lines(t: string, a: string, s: string, b: string, c: string, d: string, l: string,
               e: string, v: string, w: string, g: string, n: string)
    requires |a| == 10 && |b| == 10 && |d| == 11 && |e| == 11 && |g| == 11
    requires t == a + s + b + c + d + l + e + v + " " + w + g + n
    ensures var i := 10 + |s|;
      var j := i + 10 + |c|;
      var k := j + 11 + |l|;
      var m := k + 12 + |v| + |w|;
      && m + 11 + |n| == |t|
      && t[..10] == a && t[10..i] == s
      && t[i..i + 10] == b && t[i + 10..j] == c
      && t[j..j + 11] == d && t[j + 11..k] == l
      && t[k..k + 11] == e && t[k + 11..k + 11 + |v|] == v
      && t[k + 11 + |v|] == ' ' && t[k + 12 + |v|..m] == w
      && t[m..m + 11] == g && t[m + 11..] == n
  {
  }

  /** Where each of six concatenated pieces lies. */
  lemma Pieces(a: string, b: string, c: string, d: string, e: string, f: string)
    requires f != []
    ensures var p := a + b + c + d + e + f;
      var i := |a| + |b|;
      var j := i + |c| + |d|;
      && p[..|a|] == a
      && i + |c| <= |p| && p[i..i + |c|] == c
      && j + |e| < |p| && p[j..j + |e|] == e
      && p[j + |e|] == f[0]
  {
  }

  /** The span of a reply that is handed to `json.loads`: from the first `[`
      to the last `]` inclusive; `None` (the caller returns no candidates)
      when either bracket is missing. When the last `]` comes before the first
      `[`, Python's slice is empty. */
  function BracketSpan(content: string): (r: Option<string>)
    ensures r.None? <==> '[' !in content || ']' !in content
    ensures r.Some? && r.value != [] ==>
      && r.value[0] == '[' && r.value[|r.value| - 1] == ']'
      && exists i :: 0 <= i <= |content| - |r.value|
           && content[i..i + |r.value|] == r.value
           && '[' !in content[..i] && ']' !in content[i + |r.value|..]
    ensures r == Some([]) <==>
      && '[' in content && ']' in content
      && forall i, j :: 0 <= i < |content| && 0 <= j < |content| && content[i] == '[' && content[j] == ']' ==> j < i
  {
    var start := Find(content, '[');
    var end := RFind(content, ']') + 1;
    if start == -1 || end == 0 then None
    else if end <= start then
      Some([])
    else
      var span := content[start..end];
      assert content[start..start + |span|] == span;
      assert content[start] == '[' && content[end - 1] == ']';
      assert '[' !in content[..start];
      assert ']' !in content[end..];
      Some(span)
  }

  /** The test reply: a bare array is passed on whole. */
  lemma BareArraySpan()
    ensures BracketSpan("[{\"notation\":\"25F\"}]") == Some("[{\"notation\":\"25F\"}]")
  {
    var s := "[{\"notation\":\"25F\"}]";
    assert Find(s, '[') == 0;
    assert RFind(s, ']') == |s| - 1;
    assert s[0..|s|] == s;
  }
}
