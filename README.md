# Iconclass subject classification and JSON-LD output, modelled in Dafny

The modelled program is the Dublin Core metadata enhancer. It reads cultural-heritage records, adds generated alt text, and classifies each record into Iconclass subject notations. It writes the enhanced records as a JSON-LD dataset whose file names come from the metadata source. This project models three parts of it:

- **The classifier (`classify_object`).**
  - Keywords are drawn from the record, and a prompt is built for the language model.
  - The reply of the language model is cut down to its JSON array.
  - The lexical candidates and the generative candidates are merged into one pool, keyed by notation. Each notation keeps the highest score any of its candidates carries and the labels of its first candidate.
  - Each entry may be checked against the Iconclass authority. A failed lookup drops the entry. Missing labels are filled from the authority's reply.
  - The candidates are ranked by score. The best candidate of each main division (the first character of the notation) is taken first. The remaining places, up to `top_k`, are filled by score.
  - Each selected candidate becomes a subject record with its confidence rounded to two decimals.
- **The JSON-LD formatter.** It turns one enhanced object into an `edm:ProvidedCHO` description and wraps a list of them in an `edm:DataSet` document.
- **The file name generator.** It derives the output and log names from a local path or a URL, a suffix and a timestamp. It follows Python's `urlparse` and `pathlib` far enough to find the base name.

Modules, one per file:

| Module | What it holds |
|---|---|
| `JsonValues` | decoded JSON, Python truthiness, `or` and `dict.get` |
| `Text` | `find`, `rfind`, `strip` and `split` |
| `Keywords` | the record, tokenising and `sorted(set(...))` |
| `Prompt` | the prompt and the reply's bracket span |
| `Authority` | `validate_notation` |
| `Candidates` | the records, and `round(x, 2)` |
| `Merge` | step 4 of `classify_object` |
| `Validation` | step 5 |
| `Ranking` | steps 6 and 7 |
| `Classifier` | the whole classification and its end-to-end properties |
| `JsonLd` | the formatter |
| `Filenames` | the file name generator |

Loops in the source are methods with loop invariants, each proved equal to a recursive specification function:

| Method | Specified by |
|---|---|
| `Authority.ExtractLabels` | `Authority.Labels` |
| `Merge.MergeCandidates` | `Merge.Merged` |
| `Validation.ValidatePool` | `Validation.Validated` |
| `Ranking.DiversityPass` | `Ranking.Leaders` |
| `Ranking.SelectTopK` | `Ranking.Select` |
| `Classifier.Classify` | `Classifier.Subjects` |
| `JsonLd.FormatEnhancedObject` | `JsonLd.FormattedObject` |
| `JsonLd.FormatSubjects` | `JsonLd.SubjectEntries` |

The lemmas then state what those functions promise.

Two consequences of the code are easy to miss. The comments of `classify_object` ("Unify and deduplicate candidates", "Update with highest score", src/iconclass_classifier.py:268 and :284) could suggest otherwise, so the model states them:

- **Labels are first-candidate-wins, even when the first candidate has none** (src/iconclass_classifier.py:276-282). The pool entry takes `label_de or label` and `label_en` from the first candidate of a notation only. A later candidate never fills a label that is still missing. Only the authority does, and only with validation on. So in the Basel example the lexical hit for 25F comes first and carries no label, and 25F is returned without "Stadtansicht" (`Classifier.BaselScenario`).
- **Confidences are not clamped to [0, 1]** (src/iconclass_classifier.py:285 and :350). A score above 1 from a source comes out as a confidence above 1 (`Classifier.ConfidenceNotClamped`). `Classifier.ClassifyConfidenceBounds` proves that confidences stay in [0, 1] when every score does.

## Model

| member | source | states |
|---|---|---|
| Authority.Lookup | src/iconclass_classifier.py:37-85 | An empty notation is rejected. Otherwise a record comes back exactly when the reply has status 200 and a dict body. It carries the notation, `https://iconclass.org/<notation>` and the labels extracted from the body. |
| Authority.ExtractLabels | src/iconclass_classifier.py:59-75 | The field loop over `prefLabel`, `label` and `labels`, with its inner loop over a list field, computes exactly `Labels(data)`. |
| Authority.ValidateNotation | src/iconclass_classifier.py:37-85 | The early returns and the label extraction together give `Lookup(notation, response)`. |
| Authority.ListLabelUntagged | src/iconclass_classifier.py:68-75 | A list field with no entry tagged with the language leaves that label as it was. |
| Authority.ListLabelLastWins | src/iconclass_classifier.py:68-75 | In a list field, the last entry tagged with the language that carries a value decides the label. |
| Authority.LastFieldDecides | src/iconclass_classifier.py:64-67 | A dict-shaped `labels` field with a truthy entry overrides whatever `prefLabel` and `label` gave. |
| Authority.NoLabelFields | src/iconclass_classifier.py:59-75 | A reply without any label field yields `(None, None)`. |
| Authority.PrefLabelMapping | test/test_iconclass_classifier.py:56-72 | A 200 reply with a `prefLabel` dict for 25F gives "Stadtansicht", "city view" and `https://iconclass.org/25F`. |
| Candidates.Round2 | src/iconclass_classifier.py:350 | `round(x, 2)` is a multiple of 0.01, within 0.005 of `x`, and non-negative for a non-negative `x`. An exact tie goes to the even multiple of 0.01. |
| Candidates.RoundHalfEvenNearest | src/iconclass_classifier.py:350 | No integer is closer to `y` than its half-even rounding. |
| Candidates.Round2Nearest | src/iconclass_classifier.py:350 | No multiple of 0.01 is closer to `x` than `round(x, 2)`. |
| Candidates.Round2Monotone | src/iconclass_classifier.py:350 | Rounding preserves the order of scores. |
| Candidates.Round2Exact | src/iconclass_classifier.py:350 | A score that already has two decimals is returned unchanged. |
| Merge.MergeCandidates | src/iconclass_classifier.py:268-288 | The merge loop over `api_candidates + llm_candidates` computes `Merged(cands)`. |
| Merge.MergedNotations | src/iconclass_classifier.py:269-288 | The pool's keys, in order, are the non-empty notations in order of first appearance. |
| Merge.FirstSeenMembers | src/iconclass_classifier.py:271-283 | A notation is first-seen exactly when it is non-empty and some candidate carries it. No notation is listed twice. |
| Merge.FirstSeenOrder | src/iconclass_classifier.py:271-283 | First-seen notations are ordered by the position of their first candidate. |
| Merge.MergeStepShape | src/iconclass_classifier.py:272-288 | One iteration appends an entry only for a new notation. It raises that entry's score to the max of the old and the candidate's score (default 0.7). Every other entry is unchanged. |
| Merge.MergedKeys | src/iconclass_classifier.py:269-288 | The pool has distinct notations. Each comes from some candidate, every candidate's non-empty notation is present, and the order follows first appearance. |
| Merge.MergedLabels | src/iconclass_classifier.py:276-282 | Each entry carries `label_de or label` and `label_en` of the first candidate with its notation. Later candidates never change them. |
| Merge.TopScore | src/iconclass_classifier.py:284-288 | The reference score of a notation is at least 0, at least every score of its candidates, and attained by one of them unless it is 0. |
| Merge.MergedScores | src/iconclass_classifier.py:284-288 | Each entry's score is the top score of its notation's candidates. |
| Validation.ValidateEntry | src/iconclass_classifier.py:293-309 | With validation off, an entry is kept with the synthesised URI. With validation on, it is kept exactly when the lookup succeeds. Then it takes the authority's URI, and a label is replaced by the authority's only when it is falsy. The score and notation are kept. |
| Validation.ValidatePool | src/iconclass_classifier.py:290-309 | The validation loop computes `Validated(cfg, pool, fetch)`. |
| Validation.ValidatedFromPool | src/iconclass_classifier.py:290-309 | Every validated candidate is what step 5 made of the pool entry with its notation. |
| Validation.ValidatedComplete | src/iconclass_classifier.py:290-309 | Every pool entry that step 5 accepts is among the validated candidates. |
| Validation.ValidatedOrder | src/iconclass_classifier.py:290-309 | Validated candidates keep pool order, so their notations stay distinct. |
| Ranking.SortDescSpec | src/iconclass_classifier.py:313-315 | `sorted(..., key=score, reverse=True)` is a permutation, non-increasing in score, and stable within each score. |
| Ranking.DiversityPass | src/iconclass_classifier.py:311-320 | The division loop computes `Leaders(ranked)`. |
| Ranking.LeadersSpec | src/iconclass_classifier.py:311-320 | One leader per division present, each the first of its division in the ranking. Leaders are drawn from the ranking, and descending when it is. |
| Ranking.BestOf | src/iconclass_classifier.py:311-320 | The reference "best of a division" is absent exactly when the division is absent. Otherwise it is a member of that division scoring at least as high as all of them. |
| Ranking.BestOfEarliest | src/iconclass_classifier.py:313-315 | Among candidates of a division that tie with the best, the best comes first. |
| Ranking.RankedFirstIsBest | src/iconclass_classifier.py:311-320 | The first candidate of a division in the ranking is that division's best. |
| Ranking.LeadersOfRanking | src/iconclass_classifier.py:311-320 | The leaders of a ranking are distinct validated candidates in descending score, one per division present, and each is its division's best. |
| Ranking.Without | src/iconclass_classifier.py:333-336 | The remaining list holds exactly the validated candidates not yet selected. |
| Ranking.WithoutKeepsOrder | src/iconclass_classifier.py:333-336 | The comprehension keeps the validated order: of any two candidates it lists, the earlier comes earlier in the validated list. |
| Ranking.SortDescTies | src/iconclass_classifier.py:313-315 | Candidates that tie in the ranking come in the order they had before sorting. |
| Ranking.SelectBackfillTies | src/iconclass_classifier.py:331-338 | After the leaders, candidates that tie on score come in validated order. |
| Ranking.SelectTopK | src/iconclass_classifier.py:322-338 | The two selection passes compute `Select(topK, leaders, validated)`. |
| Ranking.SelectPrefix | src/iconclass_classifier.py:325-329 | The leaders take the first `min(top_k, #leaders)` places, in order. |
| Ranking.SelectMembersOf | src/iconclass_classifier.py:322-338 | Every selected candidate is validated, and none is selected twice. |
| Ranking.SelectLengthOf | src/iconclass_classifier.py:322-338 | Exactly `min(top_k, #validated)` candidates are selected. |
| Ranking.SelectBackfillOf | src/iconclass_classifier.py:331-338 | After the leaders, no left-out candidate outscores a selected one, and the fill descends in score. A left-out candidate that ties with a backfilled one comes after it in validated order, so the slice keeps the earlier of the two. |
| Ranking.SelectBoundaryTies | src/iconclass_classifier.py:333-338 | At the cut, a left-out candidate tied with a backfilled one comes later in validated order (stable sort, then slice). |
| Ranking.SelectLeaders | src/iconclass_classifier.py:311-329 | The selected leaders are each their division's best, with distinct divisions, in descending score. |
| Ranking.SelectCoversDivisions | src/iconclass_classifier.py:325-329 | With `top_k` at least the number of divisions, every division is represented. |
| Classifier.Classify | src/iconclass_classifier.py:268-354 | The pipeline of methods from merge to formatting returns `Subjects(cfg, lexical + generative, fetch)`. |
| Classifier.ValidatedOfSpec | src/iconclass_classifier.py:269-309 | Validated candidates have distinct notations, each made from its pool entry. |
| Classifier.SelectionSpec | src/iconclass_classifier.py:322-338 | The selection is `min(top_k, n)` distinct validated candidates. |
| Classifier.ClassifyCount | src/iconclass_classifier.py:322-342 | The result holds `min(top_k, n)` records, with no notation twice. |
| Classifier.ClassifyRecords | src/iconclass_classifier.py:340-352 | Each record's notation was proposed by a candidate. Its URI is `https://iconclass.org/<notation>` and its scheme "Iconclass". Its confidence is the notation's top score rounded, at least 0. With validation on, the authority accepted it. |
| Classifier.ClassifyLabels | src/iconclass_classifier.py:276-349 | A record's labels are those of its notation's first candidate. With validation on, a falsy one is replaced by the authority's. |
| Classifier.ClassifyDiversity | src/iconclass_classifier.py:311-342 | The first `min(top_k, #divisions)` records are their divisions' best, from distinct divisions, in descending confidence. |
| Classifier.ClassifyCoversDivisions | src/iconclass_classifier.py:325-329 | With room for every division, each division of the validated candidates appears in the selection. |
| Classifier.ClassifyBackfill | src/iconclass_classifier.py:331-342 | Past the leaders, each record scores at least as high as every validated candidate left out, and confidences descend. Records whose candidates tie on score come in pool order, and a validated candidate left out that ties with a backfilled record comes later in the pool than that record. |
| Classifier.ClassifyBoundaryTies | src/iconclass_classifier.py:331-338 | A validated candidate left out at the cut that ties with a backfilled record comes later in the pool than that record. |
| Classifier.ClassifyKeepsAll | src/iconclass_classifier.py:322-342 | With `top_k` at least the number of validated candidates, every one of them is returned. |
| Classifier.NothingValidated | src/iconclass_classifier.py:293-297 | With validation on and every lookup failing, nothing survives step 5. |
| Classifier.ClassifyValidationGate | src/iconclass_classifier.py:290-309 | With validation on and no notation known to the authority, the result is empty. |
| Classifier.ClassifyConfidenceBounds | src/iconclass_classifier.py:285-350 | Confidences lie in [0, 1] when every candidate's score is at most 1. |
| Classifier.ConfidenceNotClamped | src/iconclass_classifier.py:285-350 | A score of 1.5 comes out as a confidence of 1.5. |
| Classifier.BaselScenario | src/iconclass_classifier.py:268-354 | A lexical 25F hit at 0.8 plus generative 25F and 62, with validation off, give 25F (0.8, no labels) then 62 (0.7, "Karte"). |
| Keywords.Lower | src/iconclass_classifier.py:243 | Lower-casing maps the tokeniser's class into `a-z`, `äöüß` and `-`, and fixes those. |
| Keywords.Tokens | src/iconclass_classifier.py:242 | Each match of the tokeniser is a non-empty run of class characters. |
| Keywords.TokensSplitAtSpace | src/iconclass_classifier.py:239-242 | The tokens of `a + " " + b` are those of `a` followed by those of `b`. |
| Keywords.TokensOfJoinedWords | src/iconclass_classifier.py:239-242 | Tokenising words of the class joined with spaces gives the words back. |
| Keywords.JoinedTerms | src/iconclass_classifier.py:239-243 | The terms of the joined text are the terms of each part, in order. |
| Keywords.BeforeTotal | src/iconclass_classifier.py:246 | Python's string `<` is total. |
| Keywords.BeforeTransitive | src/iconclass_classifier.py:246 | Python's string `<` is transitive. |
| Keywords.BeforeIrreflexive | src/iconclass_classifier.py:246 | No string is below itself. |
| Keywords.BeforeAsymmetric | src/iconclass_classifier.py:246 | No two strings are each below the other. |
| Keywords.InsertSpec | src/iconclass_classifier.py:246 | Insertion keeps a list strictly ascending and adds exactly the new element. |
| Keywords.SortedSetSpec | src/iconclass_classifier.py:246 | `sorted(set(xs))` is strictly ascending and has exactly the elements of `xs`. |
| Keywords.AscendingPairs | src/iconclass_classifier.py:246 | A strictly ascending list is ordered between any two positions, so it has no duplicates. |
| Keywords.KeywordsOrdered | src/iconclass_classifier.py:212-246 | Keywords are strictly ascending, distinct, at most 20, and each longer than two characters from `a-z`, `äöüß`, `-`. |
| Keywords.KeywordsSound | src/iconclass_classifier.py:222-243 | Every keyword is a lower-cased token, longer than two, of the title, the description or a subject. |
| Keywords.KeywordsComplete | src/iconclass_classifier.py:243-246 | A term that is not a keyword was cut by the limit: there are 20 keywords and all sort before it. |
| Keywords.KeywordsSpec | src/iconclass_classifier.py:212-246 | All of the three above together. |
| Prompt.SplitJoinComma | src/iconclass_classifier.py:138-154 | A list field joined with `", "` lists its comma-free entries exactly, in order. |
| Prompt.BuildPrompt | src/iconclass_classifier.py:156-167 | The prompt ends with the tail of field lines that follows the description. |
| Prompt.PromptFields | src/iconclass_classifier.py:138-167 | The tail holds, in order, the labelled subject, creator and relation lines with their rendered fields, the era/date line with coverage and date separated by a space, and the language line, each field verbatim. |
| Prompt.PromptOpening | src/iconclass_classifier.py:156-162 | The prompt starts with the fixed instructions, followed by the title line and the description line, each holding its field verbatim. |
| Prompt.BracketSpan | src/iconclass_classifier.py:200-207 | There is no span exactly when a bracket is missing. Otherwise it runs from the first `[` to the last `]`, and it is empty exactly when every `]` precedes every `[`. |
| Prompt.BareArraySpan | test/test_iconclass_classifier.py:95-114 | A bare JSON array reply is passed on whole. |
| Text.Find | src/iconclass_classifier.py:201 | `find` gives the first index of the character, or -1 when it is absent. |
| Text.RFind | src/iconclass_classifier.py:202 | `rfind` gives the last index of the character, or -1 when it is absent. |
| Text.TrimSpec | src/common.py:142 | `strip("/")` is empty exactly when the path is all slashes. Otherwise it begins and ends with a non-slash. |
| Text.JoinSplit | src/common.py:142 | Joining the pieces of `split("/")` gives the string back. |
| Text.SplitJoin | src/common.py:142 | Splitting a join of slash-free pieces gives the pieces back. |
| Text.SplitLast | src/common.py:142-143 | `split("/")[-1]` is what follows the last `/`. |
| Filenames.GenerateFilenames | src/common.py:120-170 | The names are `<base>_<suffix>_<timestamp>.jsonld` and `<base>_processing_<timestamp>.log`. The base comes from the URL path for an http or https URL, and for a source with another scheme that names no existing file. Otherwise it is the stem of the source's name. The two names never coincide. |
| Filenames.LocalFileRule | src/common.py:152-170 | An http or https URL is never local. A source without a scheme always is. |
| Filenames.SchemeSplit | src/common.py:164-165 | A scheme, when found, ends at the first `:`, and the rest follows that colon. |
| Filenames.UrlPath | src/common.py:141 | The `urlparse` path holds no `?` and no `#`. |
| Filenames.WebUrlPath | src/common.py:141 | For `http(s)://host/path` without query, fragment or parameters, the scheme is that scheme and the path is `/path`. |
| Filenames.StemSpec | src/common.py:138 | The stem is the whole name or a non-empty prefix before a last, dot-free, non-empty suffix. A name without a dot is its own stem. |
| Filenames.StemOfExtension | src/common.py:138 | The stem of `s.ext` is `s`. |
| Filenames.NameIsLastSegment | src/common.py:138 | `Path(p).name` is the text after the last `/` when that is neither empty nor `.`. |
| Filenames.UrlBase | src/common.py:140-143 | The base taken from a URL path has no `/`. |
| Filenames.UrlBaseSpec | src/common.py:140-143 | The base is "metadata" exactly when the path is empty or all slashes. Otherwise it is the stem of what follows the last `/` once the surrounding slashes are stripped. |
| Filenames.UrlBaseOfSegment | src/common.py:142-143 | A URL path ending in `/<seg>` has the stem of `seg` as its base. |
| Filenames.BaseNameIsPlain | src/common.py:136-143 | The base name never holds a `/`. |
| Filenames.GeneratedNames | src/common.py:145-148 | With a slash-free suffix and timestamp, neither file name holds a `/`. |
| Filenames.WebUrlFilenames | src/common.py:120-150 | For `http(s)://host/dir/<stem>.<ext>` the names are built on `<stem>`, whether or not a file exists. |
| Filenames.LocalFilenames | src/common.py:120-150 | For a local `dir/<stem>.<ext>` the names are built on `<stem>`. |
| JsonLd.FormatEnhancedObject | src/common.py:176-250 | The member-by-member construction returns `FormattedObject(obj)`. |
| JsonLd.FormatSubjects | src/common.py:219-248 | The subject loop gives one `dc:subject` entry per subject, in order. |
| JsonLd.HeaderGet | src/common.py:188-199 | The header holds exactly `@context`, `@type` = `edm:ProvidedCHO` and `dc:identifier` = `objectid`. |
| JsonLd.FormattedGet | src/common.py:188-250 | A lookup on the formatted object finds each optional member exactly when it was added. |
| JsonLd.FormattedObjectSpec | src/common.py:188-250 | Context, type and identifier are always present. The alt text appears exactly when truthy. The long description appears exactly when it has a non-space character. The subject list appears exactly when non-empty, one entry per subject. |
| JsonLd.FormattedObjectKeys | src/common.py:188-250 | The members come in the fixed order: context, type, identifier, description, long description, subjects. |
| JsonLd.LabelEntriesSpec | src/common.py:235-244 | One label entry per truthy label, German first and English last. |
| JsonLd.SubjectEntryGet | src/common.py:223-244 | A subject entry carries the URI, notation, labels and confidence of its subject, and the Iconclass scheme. |
| JsonLd.FormattedSubject | src/common.py:223-244 | A classified subject is formattable, keeps its URI, notation and confidence, and lists exactly its truthy labels, German first. |
| JsonLd.FormatOutput | src/common.py:252-291 | The dataset has exactly the members `@context`, `@type`, `dc:created`, `dc:creator`, `dc:description` and `edm:providedCHO`, in that order. It has the shared context, type `edm:DataSet`, creation time `timestamp`, the fixed creator and description, and one formatted object per input, in order. |

## Left out

- **Network and language model.** The HTTP search service (`search_iconclass_terms`), its 0.5 default score, its ten-per-term limit and `time.sleep` are not modelled. The lexical candidates are an input. So is the language model call: the generative candidates are an input and only the reply's bracket span is modelled. The authority request is the function `fetch` from notation to `Response`.
- **URL quoting.** The `requests.utils.quote` encoding of the notation in the request URL is not modelled. It only shapes the request, which is abstract here.
- **JSON parsing.** `json.loads` and `response.json()` are not modelled. A decoded body is a `Json` value, or `None` when decoding raises.
- **Environment and clock.** Configuration from the environment is a `Config` value. `int(os.getenv(...))` raising and a negative `top_k` are not modelled (`top_k` is a `nat`). `datetime.now` is a parameter: the `timestamp` string of both `GenerateFilenames` and `FormatOutput`. `Path.exists` is the `pathExists` parameter.
- **The rest of the program.** Logging, loaders, the alt-text generator, the metadata enhancer, the command line and the demos are outside this model.
- **Number representation.** Scores are exact reals. `float()` raising on a non-numeric score, binary floating point, and `round` on values not exactly representable are not modelled.
- **Notation types.** Non-string notations and non-string list entries are not modelled. A missing or `None` notation is `""`.
- **Reply elements that are not objects.** `get_llm_candidates` hands back whatever `json.loads` makes of the bracket span (src/iconclass_classifier.py:207). When the array holds a non-dict element (`["25F", "31A"]`), `candidate.get` at :272 raises out of `classify_object`. `RawCandidate` has no form for such an element, so this error path is not modelled. Neither is its effect: the object gets no subjects, because the caller catches the exception.
- **Record fields that are not strings.** `Record` types title, description, coverage, date and language as strings. The source renders any value with `str()` or f-string interpolation (src/iconclass_classifier.py:161-167, :227, :231). A `None`, number, list or dict field therefore becomes its Python text form in the prompt, and its words are tokenised by `extract_keywords`. That rendering is not modelled. A field the record lacks is `""`, as `obj.get(key, "")` gives; an explicit `None` is not distinguished from it.
- **Dict mutation.** The pool and candidate dicts are modified in place in the source and shared between `candidate_pool`, `validated_candidates` and `selected`. The model uses values. This is safe because no dict escapes one classification. The `c not in selected` test compares whole records, as the model's `Without` does.
- **urlsplit errors and paths.** The `ValueError` cases of `urlsplit` (bad IPv6 brackets, invalid ports) and Windows paths are not modelled.
- JsonLd.FormatEnhancedObject: requires `Formattable(obj)`, because inputs on which the source raises are not modelled. Those are an object whose truthy `longdesc` is not a string, truthy `subjects` that are not a list, or a subject without a dict `prefLabel`.
- Filenames.GeneratedNames: states only that the names carry no `/`. The exact shapes for web and local sources are stated by `WebUrlFilenames` and `LocalFilenames`, for paths ending in `<stem>.<ext>`.
- Filenames.WebUrlFilenames: covers URLs without query, fragment or `;parameters` and with a path ending in `<stem>.<ext>`. Other URLs are covered only by `UrlBaseSpec` and `UrlPath`'s contract.
