/** `JSONLDFormatter`: an enhanced object (its identifier, alt text, long
    description and Iconclass subjects) rewritten as a JSON-LD description
    with Dublin Core, EDM and SKOS terms, and the dataset document that
    wraps a list of them. The creation time is a parameter. */
module JsonLd {
  import opened JsonValues
  import opened Candidates
  import opened Text

  /** The `@context` shared by every object and by the dataset document. */
  const Context: Json := Obj([
    ("dc", Str("http://purl.org/dc/terms/")),
    ("dcmitype", Str("http://purl.org/dc/dcmitype/")),
    ("edm", Str("http://www.europeana.eu/schemas/edm/")),
    ("foaf", Str("http://xmlns.com/foaf/0.1/")),
    ("skos", Str("http://www.w3.org/2004/02/skos/core#")),
    ("xsd", Str("http://www.w3.org/2001/XMLSchema#"))])

  /** The concept scheme every subject points to. */
  const InScheme: Json := Obj([("@id", Str("https://iconclass.org/")), ("skos:prefLabel", Str("Iconclass"))])

  const Creator: Json := Obj([
    ("@id", Str("https://github.com/maehr/dublin-core-metadata-enhancer")),
    ("foaf:name", Str("Dublin Core Metadata Enhancer"))])

  const DataSetDescription: string :=
    "Enhanced Dublin Core metadata with AI-generated alt text and Iconclass subject classification"

  /** Python's `str.isspace` for one character. */
  predicate IsSpace(c: char) {
    || c == ' ' || '\t' <= c <= '\r' || '\U{1c}' <= c <= '\U{1f}'
    || c == '\U{85}' || c == '\U{a0}' || c == '\U{1680}' || '\U{2000}' <= c <= '\U{200a}'
    || c == '\U{2028}' || c == '\U{2029}' || c == '\U{202f}' || c == '\U{205f}' || c == '\U{3000}'
  }

  /** `s.strip()` */
  function Strip(s: string): string {
    Trim(s, IsSpace)
  }

  /** Whether `longdesc and longdesc.strip()` holds of a string. */
  predicate HasText(v: Json) {
    v.Str? && Strip(v.s) != ""
  }

  /** `obj_data.get("subjects", [])` */
  function SubjectsOf(obj: Json): Json {
    match Get(obj, "subjects")
    case Some(v) => v
    case None => Arr([])
  }

  /** `subject.get("prefLabel", {})` */
  function PrefLabelsOf(subject: Json): Json {
    match Get(subject, "prefLabel")
    case Some(v) => v
    case None => Obj([])
  }

  /** A subject record the formatter can read: a dict whose `prefLabel`,
      when present, is a dict. */
  predicate SubjectFormattable(subject: Json) {
    subject.Obj? && PrefLabelsOf(subject).Obj?
  }

  /** The objects `format_enhanced_object` accepts without raising: a dict
      whose truthy `longdesc` is a string and whose truthy `subjects` is a
      list of readable subject records. */
  predicate Formattable(obj: Json) {
    && obj.Obj?
    && (Truthy(GetOrNull(obj, "longdesc")) ==> GetOrNull(obj, "longdesc").Str?)
    && (Truthy(SubjectsOf(obj)) ==>
          && SubjectsOf(obj).Arr?
          && forall k :: 0 <= k < |SubjectsOf(obj).items| ==> SubjectFormattable(SubjectsOf(obj).items[k]))
  }

  /** A language-tagged literal. */
  function Tagged(v: Json, language: string): Json {
    Obj([("@value", v), ("@language", Str(language))])
  }

  /** A typed German description. */
  function Described(typ: string, v: Json): Json {
    Obj([("@type", Str(typ)), ("@value", v), ("@language", Str("de"))])
  }

  /** `ms` with one more member when `cond` holds. */
  function AddIf(ms: seq<(string, Json)>, cond: bool, key: string, v: Json): seq<(string, Json)> {
    if cond then ms + [(key, v)] else ms
  }

  lemma GetAddIf(ms: seq<(string, Json)>, cond: bool, k: string, v: Json, key: string)
    ensures Get(Obj(AddIf(ms, cond, k, v)), key) == if cond && k == key then Some(v) else Get(Obj(ms), key)
    ensures Keys(Obj(AddIf(ms, cond, k, v))) == Keys(Obj(ms)) + if cond then [k] else []
  {
    if cond {
      GetAppend(ms, k, v, key);
    }
  }

  /** The `skos:prefLabel` list of one subject: the German label, then the
      English one, each only when truthy. */
  function LabelEntries(prefLabels: Json): seq<Json> {
    var de, en := GetOrNull(prefLabels, "de"), GetOrNull(prefLabels, "en");
    (if Truthy(de) then [Tagged(de, "de")] else []) + (if Truthy(en) then [Tagged(en, "en")] else [])
  }

  /** One subject as a `dc:subject` entry. */
  function SubjectEntry(subject: Json): Json {
    Obj([
      ("@id", GetOrNull(subject, "valueURI")),
      ("skos:notation", GetOrNull(subject, "notation")),
      ("skos:prefLabel", Arr(LabelEntries(PrefLabelsOf(subject)))),
      ("edm:confidence", GetOrNull(subject, "confidence")),
      ("skos:inScheme", InScheme)])
  }

  function SubjectEntries(items: seq<Json>): (r: seq<Json>)
    ensures |r| == |items|
    ensures forall k :: 0 <= k < |items| ==> r[k] == SubjectEntry(items[k])
  {
    seq(|items|, k requires 0 <= k < |items| => SubjectEntry(items[k]))
  }

  /** The three members every formatted object starts with. */
  function Header(obj: Json): seq<(string, Json)> {
    [("@context", Context), ("@type", Str("edm:ProvidedCHO")), ("dc:identifier", GetOrNull(obj, "objectid"))]
  }

  /** What `format_enhanced_object` returns for `obj`. */
  function FormattedObject(obj: Json): Json
    requires Formattable(obj)
  {
    var alt := GetOrNull(obj, "alt_text");
    var longdesc := GetOrNull(obj, "longdesc");
    var subjects := SubjectsOf(obj);
    var m1 := AddIf(Header(obj), Truthy(alt), "dc:description", Described("edm:AltText", alt));
    var m2 := AddIf(m1, HasText(longdesc), "edm:isNextInSequence", Described("edm:LongDescription", longdesc));
    Obj(AddIf(m2, Truthy(subjects), "dc:subject", Arr(if subjects.Arr? then SubjectEntries(subjects.items) else [])))
  }

  /** `format_enhanced_object`, building the description member by member
      and the subject list one subject at a time. */
  method FormatEnhancedObject(obj: Json) returns (jsonld: Json)
    requires Formattable(obj)
    ensures jsonld == FormattedObject(obj)
  {
    var ms := Header(obj);
    var altText := GetOrNull(obj, "alt_text");
    if Truthy(altText) {
      ms := ms + [("dc:description", Described("edm:AltText", altText))];
    }
    var longdesc := GetOrNull(obj, "longdesc");
    if Truthy(longdesc) && Strip(longdesc.s) != "" {
      ms := ms + [("edm:isNextInSequence", Described("edm:LongDescription", longdesc))];
    }
    var subjects := SubjectsOf(obj);
    if Truthy(subjects) {
      var dcSubjects := FormatSubjects(subjects.items);
      ms := ms + [("dc:subject", Arr(dcSubjects))];
    }
    jsonld := Obj(ms);
  }

  /** The subject loop of `format_enhanced_object`. */
  method FormatSubjects(subjects: seq<Json>) returns (dcSubjects: seq<Json>)
    ensures dcSubjects == SubjectEntries(subjects)
  {
    dcSubjects := [];
    for k := 0 to |subjects|
      invariant |dcSubjects| == k
      invariant forall i :: 0 <= i < k ==> dcSubjects[i] == SubjectEntry(subjects[i])
    {
      var subject := subjects[k];
      var prefLabels := PrefLabelsOf(subject);
      var labels: seq<Json> := [];
      if Truthy(GetOrNull(prefLabels, "de")) {
        labels := labels + [Tagged(GetOrNull(prefLabels, "de"), "de")];
      }
      if Truthy(GetOrNull(prefLabels, "en")) {
        labels := labels + [Tagged(GetOrNull(prefLabels, "en"), "en")];
      }
      assert labels == LabelEntries(prefLabels);
      dcSubjects := dcSubjects + [Obj([
        ("@id", GetOrNull(subject, "valueURI")),
        ("skos:notation", GetOrNull(subject, "notation")),
        ("skos:prefLabel", Arr(labels)),
        ("edm:confidence", GetOrNull(subject, "confidence")),
        ("skos:inScheme", InScheme)])];
    }
  }

  /** Each label entry carries a truthy value; the German one, when there
      is one, comes first and the English one last, so there are at most
      two. */
  lemma LabelEntriesSpec(prefLabels: Json)
    ensures var r := LabelEntries(prefLabels);
      var de, en := GetOrNull(prefLabels, "de"), GetOrNull(prefLabels, "en");
      && |r| == (if Truthy(de) then 1 else 0) + (if Truthy(en) then 1 else 0)
      && (Truthy(de) ==> r[0] == Tagged(de, "de"))
      && (Truthy(en) ==> r[|r| - 1] == Tagged(en, "en"))
      && forall k :: 0 <= k < |r| ==> Truthy(r[k].members[0].1)
  {
  }

  /** `get` on the three header members. */
  lemma HeaderGet(obj: Json, key: string)
    ensures Get(Obj(Header(obj)), key) ==
      if key == "@context" then Some(Context)
      else if key == "@type" then Some(Str("edm:ProvidedCHO"))
      else if key == "dc:identifier" then Some(GetOrNull(obj, "objectid"))
      else None
  {
    var h := Header(obj);
    if key == "@context" {
      GetLast(h, 0, key);
    } else if key == "@type" {
      GetLast(h, 1, key);
    } else if key == "dc:identifier" {
      GetLast(h, 2, key);
    } else {
      GetFindsKeys(h, key);
      assert Keys(Obj(h)) == ["@context", "@type", "dc:identifier"];
    }
  }

  /** `get` on a formatted object: each optional member shadows nothing
      and is found exactly when it was added. */
  lemma FormattedGet(obj: Json, key: string)
    requires Formattable(obj)
    ensures var alt, longdesc, subjects := GetOrNull(obj, "alt_text"), GetOrNull(obj, "longdesc"), SubjectsOf(obj);
      Get(FormattedObject(obj), key) ==
        if key == "dc:subject" && Truthy(subjects) then Some(Arr(SubjectEntries(subjects.items)))
        else if key == "edm:isNextInSequence" && HasText(longdesc) then Some(Described("edm:LongDescription", longdesc))
        else if key == "dc:description" && Truthy(alt) then Some(Described("edm:AltText", alt))
        else Get(Obj(Header(obj)), key)
  {
    var alt, longdesc, subjects := GetOrNull(obj, "alt_text"), GetOrNull(obj, "longdesc"), SubjectsOf(obj);
    var m1 := AddIf(Header(obj), Truthy(alt), "dc:description", Described("edm:AltText", alt));
    var m2 := AddIf(m1, HasText(longdesc), "edm:isNextInSequence", Described("edm:LongDescription", longdesc));
    var sub := Arr(if subjects.Arr? then SubjectEntries(subjects.items) else []);
    GetAddIf(m2, Truthy(subjects), "dc:subject", sub, key);
    GetAddIf(m1, HasText(longdesc), "edm:isNextInSequence", Described("edm:LongDescription", longdesc), key);
    GetAddIf(Header(obj), Truthy(alt), "dc:description", Described("edm:AltText", alt), key);
  }

  /** The members of a formatted object: its type and identifier always;
      the alt text exactly when it is truthy; the long description exactly
      when it holds a non-space character; the subject list exactly when
      the object has a non-empty one, with one entry per subject in order. */
  lemma FormattedObjectSpec(obj: Json)
    requires Formattable(obj)
    ensures var r := FormattedObject(obj);
      var alt, longdesc, subjects := GetOrNull(obj, "alt_text"), GetOrNull(obj, "longdesc"), SubjectsOf(obj);
      && Get(r, "@context") == Some(Context)
      && Get(r, "@type") == Some(Str("edm:ProvidedCHO"))
      && Get(r, "dc:identifier") == Some(GetOrNull(obj, "objectid"))
      && Get(r, "dc:description") == (if Truthy(alt) then Some(Described("edm:AltText", alt)) else None)
      && (Get(r, "edm:isNextInSequence").Some? <==>
            Truthy(longdesc) && exists i :: 0 <= i < |longdesc.s| && !IsSpace(longdesc.s[i]))
      && (Get(r, "edm:isNextInSequence").Some? ==>
            Get(r, "edm:isNextInSequence") == Some(Described("edm:LongDescription", longdesc)))
      && (Get(r, "dc:subject").Some? <==> Truthy(subjects))
      && (Truthy(subjects) ==> Get(r, "dc:subject") == Some(Arr(SubjectEntries(subjects.items))))
  {
    var longdesc := GetOrNull(obj, "longdesc");
    if longdesc.Str? {
      TrimSpec(longdesc.s, IsSpace);
    }
    FormattedGet(obj, "@context");
    HeaderGet(obj, "@context");
    FormattedGet(obj, "@type");
    HeaderGet(obj, "@type");
    FormattedGet(obj, "dc:identifier");
    HeaderGet(obj, "dc:identifier");
    FormattedGet(obj, "dc:description");
    HeaderGet(obj, "dc:description");
    FormattedGet(obj, "edm:isNextInSequence");
    HeaderGet(obj, "edm:isNextInSequence");
    FormattedGet(obj, "dc:subject");
    HeaderGet(obj, "dc:subject");
  }

  /** The members of a formatted object come in a fixed order. */
  lemma FormattedObjectKeys(obj: Json)
    requires Formattable(obj)
    ensures Keys(FormattedObject(obj)) ==
      ["@context", "@type", "dc:identifier"]
      + (if Truthy(GetOrNull(obj, "alt_text")) then ["dc:description"] else [])
      + (if HasText(GetOrNull(obj, "longdesc")) then ["edm:isNextInSequence"] else [])
      + (if Truthy(SubjectsOf(obj)) then ["dc:subject"] else [])
  {
    var alt, longdesc, subjects := GetOrNull(obj, "alt_text"), GetOrNull(obj, "longdesc"), SubjectsOf(obj);
    var m1 := AddIf(Header(obj), Truthy(alt), "dc:description", Described("edm:AltText", alt));
    var m2 := AddIf(m1, HasText(longdesc), "edm:isNextInSequence", Described("edm:LongDescription", longdesc));
    var sub := Arr(if subjects.Arr? then SubjectEntries(subjects.items) else []);
    assert Keys(Obj(Header(obj))) == ["@context", "@type", "dc:identifier"];
    GetAddIf(Header(obj), Truthy(alt), "dc:description", Described("edm:AltText", alt), "");
    GetAddIf(m1, HasText(longdesc), "edm:isNextInSequence", Described("edm:LongDescription", longdesc), "");
    GetAddIf(m2, Truthy(subjects), "dc:subject", sub, "");
  }

  /** `get` on a `dc:subject` entry. */
  lemma SubjectEntryGet(subject: Json)
    ensures var e := SubjectEntry(subject);
      && Get(e, "@id") == Some(GetOrNull(subject, "valueURI"))
      && Get(e, "skos:notation") == Some(GetOrNull(subject, "notation"))
      && Get(e, "skos:prefLabel") == Some(Arr(LabelEntries(PrefLabelsOf(subject))))
      && Get(e, "edm:confidence") == Some(GetOrNull(subject, "confidence"))
      && Get(e, "skos:inScheme") == Some(InScheme)
  {
    var ms := SubjectEntry(subject).members;
    GetLast(ms, 0, "@id");
    GetLast(ms, 1, "skos:notation");
    GetLast(ms, 2, "skos:prefLabel");
    GetLast(ms, 3, "edm:confidence");
    GetLast(ms, 4, "skos:inScheme");
  }

  /** A subject record as the classifier returns it. */
  function SubjectJson(s: Subject): Json {
    Obj([
      ("valueURI", Str(s.valueURI)),
      ("notation", Str(s.notation)),
      ("prefLabel", Obj([("de", s.prefDe), ("en", s.prefEn)])),
      ("confidence", Num(s.confidence)),
      ("scheme", Str(s.scheme))])
  }

  /** Formatting a classified subject keeps its URI, notation and
      confidence, and lists exactly its truthy labels, German first. */
  lemma FormattedSubject(s: Subject)
    ensures SubjectFormattable(SubjectJson(s))
    ensures var e := SubjectEntry(SubjectJson(s));
      && Get(e, "@id") == Some(Str(s.valueURI))
      && Get(e, "skos:notation") == Some(Str(s.notation))
      && Get(e, "edm:confidence") == Some(Num(s.confidence))
      && Get(e, "skos:inScheme") == Some(InScheme)
      && Get(e, "skos:prefLabel") == Some(Arr(
           (if Truthy(s.prefDe) then [Tagged(s.prefDe, "de")] else [])
           + (if Truthy(s.prefEn) then [Tagged(s.prefEn, "en")] else [])))
  {
    var j := SubjectJson(s);
    var labels := Obj([("de", s.prefDe), ("en", s.prefEn)]);
    GetLast(j.members, 0, "valueURI");
    GetLast(j.members, 1, "notation");
    GetLast(j.members, 2, "prefLabel");
    GetLast(j.members, 3, "confidence");
    GetLast(labels.members, 0, "de");
    GetLast(labels.members, 1, "en");
    SubjectEntryGet(j);
  }

  /** The dataset document `format_output` returns, created at `timestamp`. */
  function FormatOutput(objs: seq<Json>, timestamp: string): (r: Json)
    requires forall i :: 0 <= i < |objs| ==> Formattable(objs[i])
    ensures Keys(r) == ["@context", "@type", "dc:created", "dc:creator", "dc:description", "edm:providedCHO"]
    ensures Get(r, "@context") == Some(Context)
    ensures Get(r, "@type") == Some(Str("edm:DataSet"))
    ensures Get(r, "dc:created") == Some(Obj([("@value", Str(timestamp)), ("@type", Str("xsd:dateTime"))]))
    ensures Get(r, "dc:creator") == Some(Creator)
    ensures Get(r, "dc:description") == Some(Str(DataSetDescription))
    ensures Get(r, "edm:providedCHO").Some? && Get(r, "edm:providedCHO").value.Arr?
    ensures var cho := Get(r, "edm:providedCHO").value.items;
      |cho| == |objs| && forall i :: 0 <= i < |objs| ==> cho[i] == FormattedObject(objs[i])
  {
    var r := Obj([
      ("@context", Context),
      ("@type", Str("edm:DataSet")),
      ("dc:created", Obj([("@value", Str(timestamp)), ("@type", Str("xsd:dateTime"))])),
      ("dc:creator", Creator),
      ("dc:description", Str(DataSetDescription)),
      ("edm:providedCHO", Arr(seq(|objs|, i requires 0 <= i < |objs| => FormattedObject(objs[i]))))]);
    assert Keys(r) == ["@context", "@type", "dc:created", "dc:creator", "dc:description", "edm:providedCHO"];
    GetLast(r.members, 0, "@context");
    GetLast(r.members, 1, "@type");
    GetLast(r.members, 2, "dc:created");
    GetLast(r.members, 3, "dc:creator");
    GetLast(r.members, 4, "dc:description");
    GetLast(r.members, 5, "edm:providedCHO");
    r
  }
}
