# Wiktionary loader: merge-and-index core, in Dafny

This project models the core of a loader that reads a multilingual Wiktionary
dump (one parsed record per page) and builds a lexical translation resource:

* **Ingestion and grouping** (`load_wiktionary.py`, the body of the record loop).
  A record without a lemma (`word`) is a hard error. A record without a
  language, or whose language is not configured, is skipped. A record of a
  supported language with no part of speech is a hard error. One whose part of
  speech is not a noun, verb or adjective is skipped. Otherwise the record
  becomes an entry (`LemmaPos`). Its senses are the sense sub-records that carry
  glosses, in order. Each is idiomatic exactly when its tags contain
  "idiomatic", and they are ranked 1..N. Its translations are the translation
  sub-records that carry a gloss hint and a configured language code. Each is
  stored under the language that code stands for and takes the entry's parts
  of speech. The entry is appended to the list of its (language, lemma, part of
  speech) key when it has at least the minimum number of senses.
* **Merge and index** (`wiktionary_classes.py`). `merge_lemma_objs` keeps, per
  key, the first candidate with the most senses. `create_translation_dict`
  files every translation of every kept entry in both directions in a
  set-valued index keyed by (language, lemma, part of speech, target language).
  It then replaces the previous index with the new one.

Files:

* `wrappers.dfy`: `Option` and `Result`.
* `wiktionary_classes.dfy` (module `WiktionaryClasses`) contains:
  * the part-of-speech mapping;
  * title casing and rank rendering for the RDF identifiers;
  * the `Sense`, `Translation` and `LemmaPos` entities as datatypes;
  * sense ranking and the canonical-entry choice;
  * the index and its properties;
  * the `Wiktionary` accumulator class. Its three map fields are the candidate
    lists, the canonical entries and the index.
* `load_wiktionary.dfy` (module `LoadWiktionary`) contains:
  * raw records with optional fields, and the configuration maps;
  * the per-record decision `Ingest`, with the imperative sense and translation
    loops proved against it;
  * `IngestRecord`, which appends into the accumulator;
  * `Load`, the run over all records followed by merge and index
    construction, in that order.

Hard errors of the source (a missing dictionary key raises and aborts the
run) are the `Failed` outcome with an `IngestError`. Silent skips are
`Skipped` with a reason.

Incomplete records are handled as the code reads their fields:

* A record of a supported language without a part of speech is a hard error
  (load_wiktionary.py:73).
* A translation sub-record without a language code is a hard error even when
  it has no gloss hint. The code reads the code (load_wiktionary.py:109) before
  it tests for the hint.
* A translation's language code is kept only if it is a key of
  `translation_languages`.
* A kept translation whose word is missing, or whose code stands for a language
  missing from `language2info`, aborts the run during ingestion. The index
  builder itself never fails.

## Model

| member | source | states |
|---|---|---|
| `WiktionaryClasses.MapWiktPos2FnPos` | wiktionary_classes.py:4-25 | "noun", "verb", "adj" give N, V, A (each if and only if), and every other tag gives None |
| `WiktionaryClasses.TitleFromIdempotent` | wiktionary_classes.py:165-169 | title casing (ASCII model of `str.title`) is idempotent |
| `WiktionaryClasses.TitleOfSupportedPos` | wiktionary_classes.py:165-169 | the supported tags are title-cased to "Noun", "Verb", "Adj" |
| `WiktionaryClasses.NatToStringRoundTrip` | wiktionary_classes.py:202-203 | the decimal rank text in a sense identifier reads back as the rank |
| `WiktionaryClasses.Ranked` | wiktionary_classes.py:147-149 | after ranking, the sense at position i has rank i+1; order, length and all other fields are kept |
| `WiktionaryClasses.SetSenseRanks` | wiktionary_classes.py:147-149 | the ranking loop yields the entry with exactly the `Ranked` senses and nothing else changed |
| `WiktionaryClasses.EntryUrisShowPartOfSpeech` | wiktionary_classes.py:165-169 | full identifier = namespace + lemma + "#" + part-of-speech label; short identifier = short namespace + ":" + the full one without its namespace |
| `WiktionaryClasses.SenseUrisExtendEntryUris` | wiktionary_classes.py:199-203 | a ranked sense has its entry's full identifier, and its short identifier is the entry's followed by "-" and the rank i+1 |
| `WiktionaryClasses.Canonical` | wiktionary_classes.py:73-85 | the entry kept for a key is one of its candidates |
| `WiktionaryClasses.FirstMaximumExtends` | wiktionary_classes.py:79-83 | appending a candidate keeps the first maximum, unless the new one has strictly more senses, in which case the new one becomes the first maximum |
| `WiktionaryClasses.CanonicalIsFirstMaximum` | wiktionary_classes.py:77-83 | the kept entry is at a position holding the largest sense count with no earlier candidate as large (first maximum) |
| `WiktionaryClasses.FirstMaximumIsUnique` | wiktionary_classes.py:79-83 | the first maximum is unique, so the choice depends only on the candidates and their order |
| `WiktionaryClasses.CanonicalKeepsEarlierOnTie` | wiktionary_classes.py:81-83 | a later candidate with an equal or smaller sense count never replaces the current choice (strict comparison) |
| `WiktionaryClasses.ChooseLemmaObj` | wiktionary_classes.py:74-83 | the arg-max loop, including its one-candidate shortcut, returns exactly the canonical entry |
| `WiktionaryClasses.MergeGroups` | wiktionary_classes.py:73-85 | the loop over the keys yields the old canonical map overridden by the canonical entry of every grouping key |
| `WiktionaryClasses.CanonicalMapValid` | wiktionary_classes.py:73-85 | every canonical entry is filed under its own key and is well formed |
| `WiktionaryClasses.Wiktionary.constructor` | wiktionary_classes.py:32-35 | the three maps start empty |
| `WiktionaryClasses.Wiktionary.MergeLemmaObjs` | wiktionary_classes.py:68-85 | one canonical entry per grouping key is written; candidate lists and index unchanged; invariant kept |
| `WiktionaryClasses.BuildTranslationIndex` | wiktionary_classes.py:96-120 | the loops yield exactly the set-valued index of both directions of all translations, with no empty bucket |
| `WiktionaryClasses.Wiktionary.CreateTranslationDict` | wiktionary_classes.py:87-120 | the index field is replaced by the index of the canonical entries; it does not depend on the previous index |
| `WiktionaryClasses.IndexIsDetermined` | wiktionary_classes.py:96-120 | two indexes of the same links are equal, so rebuilding the index gives the same index (idempotence) |
| `WiktionaryClasses.IndexHasBothDirections` | wiktionary_classes.py:104-117 | for every canonical entry E and translation T: (T.lemma, T.pos) is under (E.lang, E.lemma, E.pos, T.lang) and (E.lemma, E.pos) is under (T.lang, T.lemma, T.pos, E.lang) |
| `WiktionaryClasses.IndexComesFromTranslations` | wiktionary_classes.py:98-117 | every pair in the index is one direction of some translation of some canonical entry |
| `WiktionaryClasses.IndexIsSymmetric` | wiktionary_classes.py:110-117 | (b,Q) under (A,a,P,B) implies (a,P) under (B,b,Q,A) |
| `WiktionaryClasses.BankCandidatesMerge` | wiktionary_classes.py:73-85 | two candidates under one key with 1 and 3 senses: in either order the merge keeps the 3-sense one |
| `WiktionaryClasses.BankIndex` | wiktionary_classes.py:96-120 | the index of a single English noun entry "bank" whose only translation is Dutch "bank" holds exactly (English, bank, N, Dutch) ↦ {(bank, N)} and (Dutch, bank, N, English) ↦ {(bank, N)} |
| `WiktionaryClasses.BankScenario` | wiktionary_classes.py:73-120 | for the candidate list [1-sense page, 3-sense page] under one key, with the second translated into Dutch "bank", the index of the merged map holds exactly those two entries |
| `LoadWiktionary.GlossedSenses` | load_wiktionary.py:85-102 | built senses belong to the entry, are unranked, and are no more than the sense records |
| `LoadWiktionary.GlossedIndices` | load_wiktionary.py:85-87 | the positions of the glossed sense records, increasing, and all of them |
| `LoadWiktionary.GlossedSensesFollowRecords` | load_wiktionary.py:85-102 | the i-th sense comes from the i-th glossed record: its glosses, and idiomatic iff its tags are present and contain "idiomatic" |
| `LoadWiktionary.BuildSenses` | load_wiktionary.py:85-102 | the sense loop with its idiomatic flag yields exactly `GlossedSenses` |
| `LoadWiktionary.Translations` | load_wiktionary.py:107-124 | every built translation carries the source entry's parts of speech |
| `LoadWiktionary.TranslationOfFails` | load_wiktionary.py:108-115 | one sub-record raises an error iff it has no code, even without a gloss hint; or it is kept (has a hint and a configured code) and has no word; or it is kept and its code stands for a language missing from `language2info`; and the error named is the one for that case |
| `LoadWiktionary.AcceptedTranslation` | load_wiktionary.py:107-124 | a sub-record that raises no error is kept iff it has a gloss hint and a configured code; a kept one is stored under the aliased language with the entry's parts of speech and the hint; its id is namespace(alias) + word + "#" + title(pos) |
| `LoadWiktionary.KeptIndices` | load_wiktionary.py:108-111 | the positions of the sub-records that yield a translation, increasing, and all of them |
| `LoadWiktionary.TranslationsFollowRecords` | load_wiktionary.py:107-124 | when no error occurs, the i-th translation of the entry is the one the i-th kept sub-record yields, so the translations are the kept sub-records' in record order and the others add nothing |
| `LoadWiktionary.TranslationsFailOnFirstError` | load_wiktionary.py:108-115 | building the translations fails iff some sub-record raises an error (conditions in `TranslationOfFails`), and the error is that of the first such sub-record |
| `LoadWiktionary.TranslationsFailurePersists` | load_wiktionary.py:107-124 | after a hard error on a prefix of the sub-records, the rest cannot undo it |
| `LoadWiktionary.BuildTranslations` | load_wiktionary.py:107-124 | the translation loop, with its early aborts, yields exactly `Translations` |
| `LoadWiktionary.MissingWordIsFatal` | load_wiktionary.py:53-60 | a record without `word` is a hard error, even a redirect without `lang` |
| `LoadWiktionary.UnsupportedLanguageIsSkipped` | load_wiktionary.py:56-66 | a record without `lang`, or with one that is not configured, adds nothing |
| `LoadWiktionary.PartOfSpeechFilter` | load_wiktionary.py:72-79 | no `pos` is a hard error; a `pos` other than noun, verb or adj is a skip |
| `LoadWiktionary.AppendedEntryIsWellFormed` | load_wiktionary.py:81-129 | an appended entry is under its own key, has at least the minimum number of senses, senses ranked 1..N and belonging to it, and translations inheriting its parts of speech |
| `LoadWiktionary.AppendedSensesAreRankedGlossedRecords` | load_wiktionary.py:84-104 | the appended entry's senses are exactly the glossed records in order, each with the right idiomatic flag and rank i+1 |
| `LoadWiktionary.AppendedIffEnoughSenses` | load_wiktionary.py:81-129 | a supported record whose translations raise no error is appended iff its sense count reaches the minimum, under (lang, lemma, fn_pos) |
| `LoadWiktionary.AppendEntry` | load_wiktionary.py:128-129 | the entry goes at the end of its key's list (created if missing); the earlier entries stay in order and other keys are unchanged |
| `LoadWiktionary.BuildEntry` | load_wiktionary.py:53-129 | the imperative loop body computes exactly the outcome `Ingest` describes |
| `LoadWiktionary.IngestRecord` | load_wiktionary.py:53-129 | the accumulator's candidate lists change only by appending the built entry when there is one; the invariant is kept |
| `LoadWiktionary.GroupAllMeetsThreshold` | load_wiktionary.py:48-129 | after any run without errors, every grouped entry meets the threshold, is well formed and under its own key, and no list is empty |
| `LoadWiktionary.CanonicalEntriesMeetThreshold` | load_wiktionary.py:128-129 | no canonical entry has fewer senses than the minimum, even when it was the only candidate |
| `LoadWiktionary.Load` | load_wiktionary.py:45-139 | the run stops at the first hard error; otherwise the canonical map is the choice per grouping key and the index is that of the canonical entries |
| `LoadWiktionary.GroupAllOfTwo` | load_wiktionary.py:128-129 | two records that both yield an entry for the same key are grouped together under that key, in record order |
| `LoadWiktionary.OneSenseBankPageIngested` | load_wiktionary.py:53-129 | an English noun page for "bank" with one glossed sense becomes an entry under (English, bank, N) with one sense |
| `LoadWiktionary.ThreeSenseBankPageIngested` | load_wiktionary.py:53-129 | an English noun page for "bank" with three glossed senses and a Dutch translation "bank" becomes an entry under (English, bank, N) with three senses and exactly that translation, as Dutch "bank", N |
| `LoadWiktionary.BankPagesGrouped` | load_wiktionary.py:48-129 | loading those two pages, one-sense page first, with a minimum of one sense succeeds and yields one key whose candidates meet the requirements of `BankScenario` |

## Left out

* `Wiktionary.__str__` (wiktionary_classes.py:38-66) is not modelled. It computes
  descriptive statistics with `scipy.stats.describe` and `Counter` and formats
  them as text, which is floating point and foreign-library code.
* The `__str__` methods of `LemmaPos`, `Sense` and `Translation` are not
  modelled: they only format text for debugging.
* Command-line parsing, removal and creation of the output folder, configuration
  loading, line-by-line reading and JSON parsing of the dump, and the pickle
  output (load_wiktionary.py:17-51, 137-147) are input/output. The model starts
  from parsed records and a configuration value and ends with the accumulator.
* Verbose printing and the interactive `input('continue?')` prompt
  (load_wiktionary.py:130-135) are console I/O with no effect on the data.
* how_to_use.py is not part of this model. It only unpickles the result and
  prints lookups.
* `Title`: models `str.title` for ASCII only. ASCII letters are the only cased
  characters, and every other character is kept and counts as uncased. Unicode
  casing is not modelled.
* `ChooseLemmaObj`, `Canonical`, `MergeGroups`: require every candidate list to
  be non-empty. For an empty list the source would store `None`. The lists are
  created only by appending, so an empty list never arises, and the
  accumulator's invariant states this.
* Entries, senses and translations are immutable values here. In the source,
  Python objects are mutated while one entry is built (appending senses and
  translations, setting ranks). No object is shared between entries, and the
  same entry object sits in both the candidate list and the canonical map
  without being changed afterwards. So aliasing is not observable, and the
  model does not capture object identity.
* Dictionary iteration order is not modelled. The merge and the index loops
  pick keys in any order, and their results do not depend on that order.
* Python exceptions are modelled as the `Failed` outcome. The model does not
  capture the partially built state of the aborted record, which the source
  discards with the process.
