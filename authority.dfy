/** The authority validator (`validate_notation`): one lookup of a notation
    and the extraction of its German and English labels from whichever label
    field shapes the reply uses. The HTTP request itself is not modelled; its
    outcome is a `Response`. */
module Authority {
  import opened JsonValues

  /** The outcome of `requests.get` on the notation's JSON document: the call
      raised (timeout, connection error), or a reply with its status code and
      its body as decoded by `response.json()` (`None` when decoding raises). */
  datatype Response = Unreachable | Reply(status: int, body: Option<Json>)

  /** The non-empty dict `validate_notation` returns on success. */
  datatype AuthorityRecord = AuthorityRecord(notation: string, labelDe: Json, labelEn: Json, uri: string)

  const BaseUri: string := "https://iconclass.org/"

  /** The label fields tried, in this order. */
  const LabelKeys: seq<string> := ["prefLabel", "label", "labels"]

  /** An entry of a list-shaped label field that sets the label of `lang`:
      a dict whose `lang` is `lang` and that has a `value`. */
  predicate SetsLabel(item: Json, lang: string) {
    item.Obj? && Get(item, "lang") == Some(Str(lang)) && Get(item, "value").Some?
  }

  /** One entry of a list-shaped field: `label = item.get("value", label)`
      when the entry is a dict tagged `lang`. */
  function TaggedStep(item: Json, lang: string, current: Json): Json {
    if item.Obj? && Get(item, "lang") == Some(Str(lang)) then
      match Get(item, "value")
      case Some(v) => v
      case None => current
    else current
  }

  /** The list loop over `items`, starting from `label`. */
  function ListLabel(items: seq<Json>, lang: string, current: Json): Json {
    if items == [] then current
    else TaggedStep(items[|items| - 1], lang, ListLabel(items[..|items| - 1], lang, current))
  }

  /** One label field: a dict contributes `field.get(lang) or label`, a list
      runs the list loop, anything else leaves the labels alone. */
  function KeyStep(data: Json, key: string, labels: (Json, Json)): (Json, Json) {
    match Get(data, key)
    case Some(Obj(ms)) =>
      (Or(GetOrNull(Obj(ms), "de"), labels.0), Or(GetOrNull(Obj(ms), "en"), labels.1))
    case Some(Arr(items)) =>
      (ListLabel(items, "de", labels.0), ListLabel(items, "en", labels.1))
    case _ => labels
  }

  /** The labels after trying the first `k` label fields. */
  function LabelsUpTo(data: Json, k: nat): (Json, Json)
    requires k <= |LabelKeys|
  {
    if k == 0 then (Null, Null) else KeyStep(data, LabelKeys[k - 1], LabelsUpTo(data, k - 1))
  }

  /** The `(label_de, label_en)` pair extracted from a reply document. */
  function Labels(data: Json): (Json, Json) {
    LabelsUpTo(data, |LabelKeys|)
  }

  /** `validate_notation(notation)`, with the reply to its request given. */
  function Lookup(notation: string, response: Response): (r: Option<AuthorityRecord>)
    ensures notation == "" ==> r == None
    ensures r.Some? <==>
      && notation != ""
      && response.Reply? && response.status == 200
      && response.body.Some? && response.body.value.Obj?
    ensures r.Some? ==> r.value.notation == notation && r.value.uri == BaseUri + notation
    ensures r.Some? ==> (r.value.labelDe, r.value.labelEn) == Labels(response.body.value)
  {
    if notation == "" then None
    else match response
      case Unreachable => None
      case Reply(status, body) =>
        if status != 200 then None
        else match body
          case None => None
          case Some(data) =>
            if !data.Obj? then None  // `data.get` raises on anything but a dict
            else
              var (de, en) := Labels(data);
              Some(AuthorityRecord(notation, de, en, BaseUri + notation))
  }

  /** The label loop of `validate_notation`, updating the two labels field by
      field and entry by entry. */
  method ExtractLabels(data: Json) returns (de: Json, en: Json)
    ensures (de, en) == Labels(data)
  {
    de, en := Null, Null;
    for k := 0 to |LabelKeys|
      invariant (de, en) == LabelsUpTo(data, k)
    {
      var field := Get(data, LabelKeys[k]);
      if field.Some? && field.value.Obj? {
        de := Or(GetOrNull(field.value, "de"), de);
        en := Or(GetOrNull(field.value, "en"), en);
      } else if field.Some? && field.value.Arr? {
        var items := field.value.items;
        ghost var de0, en0 := de, en;
        for i := 0 to |items|
          invariant de == ListLabel(items[..i], "de", de0)
          invariant en == ListLabel(items[..i], "en", en0)
        {
          assert items[..i + 1][..i] == items[..i];
          var item := items[i];
          if item.Obj? {
            if Get(item, "lang") == Some(Str("de")) {
              de := match Get(item, "value") case Some(v) => v case None => de;
            }
            if Get(item, "lang") == Some(Str("en")) {
              en := match Get(item, "value") case Some(v) => v case None => en;
            }
          }
        }
        assert items[..|items|] == items;
      }
    }
  }

  /** `validate_notation`: an empty notation is rejected before any request;
      a failed request, a status other than 200, an undecodable body or a body
      that is not a dict give the empty result. */
  method ValidateNotation(notation: string, response: Response) returns (r: Option<AuthorityRecord>)
    ensures r == Lookup(notation, response)
  {
    if notation == "" { return None; }
    if !response.Reply? || response.status != 200 { return None; }
    if response.body.None? || !response.body.value.Obj? { return None; }
    var de, en := ExtractLabels(response.body.value);
    r := Some(AuthorityRecord(notation, de, en, BaseUri + notation));
  }

  /** Without an entry tagged with the language, a list-shaped label field
      leaves the label as it was. */
  lemma {:induction false} ListLabelUntagged(items: seq<Json>, lang: string, current: Json)
    requires forall k :: 0 <= k < |items| ==> !SetsLabel(items[k], lang)
    ensures ListLabel(items, lang, current) == current
  {
    if items != [] {
      var n := |items| - 1;
      assert forall k :: 0 <= k < n ==> items[..n][k] == items[k];
      ListLabelUntagged(items[..n], lang, current);
    }
  }

  /** In a list-shaped label field the last entry tagged with the language
      (and carrying a value) wins. */
  lemma {:induction false} ListLabelLastWins(items: seq<Json>, lang: string, current: Json, k: nat)
    requires k < |items| && SetsLabel(items[k], lang)
    requires forall m :: k < m < |items| ==> !SetsLabel(items[m], lang)
    ensures ListLabel(items, lang, current) == Get(items[k], "value").value
  {
    var n := |items| - 1;
    if k < n {
      assert forall m :: k < m < n ==> items[..n][m] == items[m];
      ListLabelLastWins(items[..n], lang, current, k);
    }
  }

  /** A dict-shaped `labels` field with a truthy entry decides that label,
      whatever the earlier fields held. */
  lemma LastFieldDecides(data: Json, ms: seq<(string, Json)>)
    requires Get(data, "labels") == Some(Obj(ms))
    ensures Truthy(GetOrNull(Obj(ms), "de")) ==> Labels(data).0 == GetOrNull(Obj(ms), "de")
    ensures Truthy(GetOrNull(Obj(ms), "en")) ==> Labels(data).1 == GetOrNull(Obj(ms), "en")
  {
  }

  /** A reply without any label field yields no labels. */
  lemma NoLabelFields(data: Json)
    requires forall k :: 0 <= k < |LabelKeys| ==> Get(data, LabelKeys[k]) == None
    ensures Labels(data) == (Null, Null)
  {
    assert LabelsUpTo(data, 0) == (Null, Null);
    assert Get(data, LabelKeys[0]) == None;
    assert LabelsUpTo(data, 1) == (Null, Null);
    assert Get(data, LabelKeys[1]) == None;
    assert LabelsUpTo(data, 2) == (Null, Null);
    assert Get(data, LabelKeys[2]) == None;
  }

  /** The reply of the successful-validation test. */
  lemma PrefLabelMapping()
    ensures Lookup("25F", Reply(200, Some(Obj([("prefLabel", Obj([("de", Str("Stadtansicht")), ("en", Str("city view"))]))]))))
      == Some(AuthorityRecord("25F", Str("Stadtansicht"), Str("city view"), "https://iconclass.org/25F"))
  {
    var inner := Obj([("de", Str("Stadtansicht")), ("en", Str("city view"))]);
    var data := Obj([("prefLabel", inner)]);
    assert Get(data, "prefLabel") == Some(inner);
    assert Get(data, "label") == None && Get(data, "labels") == None;
    assert GetOrNull(inner, "de") == Str("Stadtansicht");
    assert GetOrNull(inner, "en") == Str("city view");
    assert LabelsUpTo(data, 1) == (Str("Stadtansicht"), Str("city view"));
    assert LabelsUpTo(data, 2) == LabelsUpTo(data, 1);
    assert LabelsUpTo(data, 3) == LabelsUpTo(data, 2);
    assert Labels(data) == (Str("Stadtansicht"), Str("city view"));
    assert BaseUri + "25F" == "https://iconclass.org/25F";
  }
}
