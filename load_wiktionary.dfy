/** Ingestion of parsed Wiktionary records: filtering by language and part of
    speech, building the ranked glossed senses and the outbound translations of
    an entry, and filing the entry under its (language, lemma, part of speech)
    key when it has enough senses; then the run over all records, followed by
    the merge and the index construction. */
module LoadWiktionary {
  import opened Wrappers
  import opened WiktionaryClasses

  // ---------------------------------------------------------------------------
  // Raw records and configuration
  // ---------------------------------------------------------------------------

  /** A sense sub-record; either field may be absent. */
  datatype SenseRecord = SenseRecord(glosses: Option<seq<string>>, tags: Option<seq<string>>)

  /** A translation sub-record; any field may be absent. */
  datatype TranslationRecord = TranslationRecord(
    lang: Option<string>,
    word: Option<string>,
    sense: Option<string>)

  /** One parsed line of the dump; any field may be absent. */
  datatype Record = Record(
    word: Option<string>,
    lang: Option<string>,
    pos: Option<string>,
    senses: Option<seq<SenseRecord>>,
    translations: Option<seq<TranslationRecord>>)

  datatype LanguageInfo = LanguageInfo(namespace: string, shortNamespace: string)

  /** `language2info`: the supported languages and their namespaces;
      `translationLanguages`: the translation language codes that are kept, and
      the language each stands for. */
  datatype Config = Config(
    language2info: map<string, LanguageInfo>,
    translationLanguages: map<string, string>)

  /** A field the loader reads unconditionally is absent: the run aborts. */
  datatype IngestError =
    | MissingWord
    | MissingPos
    | MissingTranslationLang
    | MissingTranslationWord
    | UnknownLanguage(lang: string)

  datatype SkipReason =
    | NoLanguage
    | UnsupportedLanguage(lang: string)
    | UnsupportedPos(pos: string)
    | TooFewSenses(count: nat)

  /** What ingesting one record does. */
  datatype Outcome =
    | Appended(key: Key, entry: LemmaPos)
    | Skipped(reason: SkipReason)
    | Failed(error: IngestError)

  // ---------------------------------------------------------------------------
  // Senses
  // ---------------------------------------------------------------------------

  /** A sense is idiomatic when its record has tags and "idiomatic" is one of them. */
  predicate IsIdiomatic(r: SenseRecord) {
    r.tags.Some? && "idiomatic" in r.tags.value
  }

  /** A fresh, unranked sense of entry `e`. */
  function NewSense(e: LemmaPos, glosses: seq<string>, idiomatic: bool): Sense {
    Sense(e.namespace, e.shortNamespace, e.lang, e.headword, e.wiktPos, e.fnPos, glosses, idiomatic, None)
  }

  /** The senses built for entry `e`: one per sense record that has glosses, in
      record order. */
  function GlossedSenses(e: LemmaPos, rs: seq<SenseRecord>): (senses: seq<Sense>)
    ensures |senses| <= |rs|
    ensures forall i :: 0 <= i < |senses| ==> SenseOf(senses[i], e) && senses[i].senseRank == None
  {
    if rs == [] then []
    else
      var r := rs[|rs| - 1];
      GlossedSenses(e, rs[..|rs| - 1]) +
      (if r.glosses.Some? then [NewSense(e, r.glosses.value, IsIdiomatic(r))] else [])
  }

  /** The positions of the sense records that have glosses, in increasing order. */
  function GlossedIndices(rs: seq<SenseRecord>): (ix: seq<nat>)
    ensures forall i :: 0 <= i < |ix| ==> ix[i] < |rs| && rs[ix[i]].glosses.Some?
    ensures forall i, j :: 0 <= i < j < |ix| ==> ix[i] < ix[j]
    ensures forall j :: 0 <= j < |rs| && rs[j].glosses.Some? ==> j in ix
  {
    if rs == [] then []
    else GlossedIndices(rs[..|rs| - 1]) + (if rs[|rs| - 1].glosses.Some? then [|rs| - 1] else [])
  }

  /** The i-th built sense comes from the i-th glossed record: its glosses, and
      idiomatic exactly when that record is tagged so. */
  lemma {:induction false} GlossedSensesFollowRecords(e: LemmaPos, rs: seq<SenseRecord>)
    ensures |GlossedSenses(e, rs)| == |GlossedIndices(rs)|
    ensures forall i :: 0 <= i < |GlossedIndices(rs)| ==>
              var r := rs[GlossedIndices(rs)[i]];
              GlossedSenses(e, rs)[i] == NewSense(e, r.glosses.value, IsIdiomatic(r))
  {
    if rs != [] {
      var prefix := rs[..|rs| - 1];
      GlossedSensesFollowRecords(e, prefix);
      forall i | 0 <= i < |GlossedIndices(prefix)|
        ensures rs[GlossedIndices(prefix)[i]] == prefix[GlossedIndices(prefix)[i]]
      {
      }
    }
  }

  /** The sense loop of the loader. */
  method BuildSenses(e: LemmaPos, rs: seq<SenseRecord>) returns (senses: seq<Sense>)
    ensures senses == GlossedSenses(e, rs)
  {
    senses := [];
    var i := 0;
    while i < |rs|
      invariant 0 <= i <= |rs|
      invariant senses == GlossedSenses(e, rs[..i])
    {
      assert rs[..i + 1][..i] == rs[..i];
      var senseInfo := rs[i];
      if senseInfo.glosses.Some? {
        var idiomatic := false;
        if senseInfo.tags.Some? {
          if "idiomatic" in senseInfo.tags.value {
            idiomatic := true;
          }
        }
        senses := senses + [NewSense(e, senseInfo.glosses.value, idiomatic)];
      }
      i := i + 1;
    }
    assert rs[..i] == rs;
  }

  // ---------------------------------------------------------------------------
  // Translations
  // ---------------------------------------------------------------------------

  /** What one translation record of an entry with parts of speech `wiktPos` and
      `fnPos` contributes: a hard error, nothing, or one translation. */
  function TranslationOf(tr: TranslationRecord, wiktPos: string, fnPos: FnPos, config: Config)
    : Result<Option<Translation>, IngestError>
  {
    if tr.lang.None? then Failure(MissingTranslationLang)
    else if tr.sense.None? || tr.lang.value !in config.translationLanguages then Success(None)
    else
      var targetLang := config.translationLanguages[tr.lang.value];
      if tr.word.None? then Failure(MissingTranslationWord)
      else if targetLang !in config.language2info then Failure(UnknownLanguage(targetLang))
      else
        var targetLemma := tr.word.value;
        var translationId := config.language2info[targetLang].namespace + targetLemma + "#" + Title(wiktPos);
        Success(Some(Translation(targetLang, targetLemma, wiktPos, fnPos, translationId, tr.sense.value)))
  }

  /** A translation is kept exactly when its record has a sense and a configured
      language; it is stored under the language that code stands for, with the
      owning entry's parts of speech and the gloss hint, and its identifier is
      the full identifier an entry for the target lemma in that language would
      have under the same part of speech. */
  lemma AcceptedTranslation(tr: TranslationRecord, wiktPos: string, fnPos: FnPos, config: Config)
    requires TranslationOf(tr, wiktPos, fnPos, config).Success?
    ensures TranslationOf(tr, wiktPos, fnPos, config).value.Some? <==>
            tr.sense.Some? && tr.lang.value in config.translationLanguages
    ensures TranslationOf(tr, wiktPos, fnPos, config).value.Some? ==>
              var t := TranslationOf(tr, wiktPos, fnPos, config).value.value;
              var info := config.language2info[t.lang];
              t.lang == config.translationLanguages[tr.lang.value] &&
              Some(t.headword) == tr.word && Some(t.gloss) == tr.sense &&
              t.wiktPos == wiktPos && t.fnPos == fnPos &&
              t.translationId ==
                LemmaPos(info.namespace, info.shortNamespace, t.lang, t.headword, wiktPos, fnPos, [], [])
                  .FullRdfUri()
  {
  }

  /** A translation record raises an error exactly when it has no language
      code (read before the gloss hint is looked at), or when it would be kept
      but has no word or its code stands for a language without a namespace. */
  lemma TranslationOfFails(tr: TranslationRecord, wiktPos: string, fnPos: FnPos, config: Config)
    ensures TranslationOf(tr, wiktPos, fnPos, config).Failure? <==>
            tr.lang.None? ||
            (tr.sense.Some? && tr.lang.value in config.translationLanguages &&
             (tr.word.None? || config.translationLanguages[tr.lang.value] !in config.language2info))
    ensures tr.lang.None? ==>
              TranslationOf(tr, wiktPos, fnPos, config) == Failure(MissingTranslationLang)
    ensures tr.lang.Some? && tr.sense.Some? && tr.lang.value in config.translationLanguages ==>
              var alias := config.translationLanguages[tr.lang.value];
              (tr.word.None? ==>
                 TranslationOf(tr, wiktPos, fnPos, config) == Failure(MissingTranslationWord)) &&
              (tr.word.Some? && alias !in config.language2info ==>
                 TranslationOf(tr, wiktPos, fnPos, config) == Failure(UnknownLanguage(alias)))
  {
  }

  /** The positions of the translation records that are kept, in increasing order. */
  function KeptIndices(trs: seq<TranslationRecord>, wiktPos: string, fnPos: FnPos, config: Config)
    : (ix: seq<nat>)
    ensures forall i :: 0 <= i < |ix| ==>
              ix[i] < |trs| && TranslationOf(trs[ix[i]], wiktPos, fnPos, config).Success? &&
              TranslationOf(trs[ix[i]], wiktPos, fnPos, config).value.Some?
    ensures forall i, j :: 0 <= i < j < |ix| ==> ix[i] < ix[j]
    ensures forall j :: (0 <= j < |trs| && TranslationOf(trs[j], wiktPos, fnPos, config).Success? &&
                         TranslationOf(trs[j], wiktPos, fnPos, config).value.Some?) ==> j in ix
  {
    if trs == [] then []
    else
      var last := TranslationOf(trs[|trs| - 1], wiktPos, fnPos, config);
      KeptIndices(trs[..|trs| - 1], wiktPos, fnPos, config) +
      (if last.Success? && last.value.Some? then [|trs| - 1] else [])
  }

  /** When no record raises an error, the i-th translation of the entry is the
      one the i-th kept record yields; records without a gloss hint or with an
      unconfigured code contribute nothing. */
  lemma {:induction false} TranslationsFollowRecords(trs: seq<TranslationRecord>, wiktPos: string,
                                                     fnPos: FnPos, config: Config)
    requires Translations(trs, wiktPos, fnPos, config).Success?
    ensures |Translations(trs, wiktPos, fnPos, config).value| == |KeptIndices(trs, wiktPos, fnPos, config)|
    ensures forall i :: 0 <= i < |KeptIndices(trs, wiktPos, fnPos, config)| ==>
              Translations(trs, wiktPos, fnPos, config).value[i] ==
              TranslationOf(trs[KeptIndices(trs, wiktPos, fnPos, config)[i]], wiktPos, fnPos, config).value.value
  {
    if trs != [] {
      var n := |trs| - 1;
      var prefix := trs[..n];
      TranslationsFollowRecords(prefix, wiktPos, fnPos, config);
      var ix := KeptIndices(prefix, wiktPos, fnPos, config);
      var prev := Translations(prefix, wiktPos, fnPos, config).value;
      var last := TranslationOf(trs[n], wiktPos, fnPos, config);
      var kept := last.Success? && last.value.Some?;
      assert KeptIndices(trs, wiktPos, fnPos, config) == ix + (if kept then [n] else []);
      assert Translations(trs, wiktPos, fnPos, config).value == prev + (if kept then [last.value.value] else []);
      forall i | 0 <= i < |ix|
        ensures trs[ix[i]] == prefix[ix[i]]
      {
      }
    }
  }

  /** The translations of an entry: the kept ones in record order, or the error
      of the first record that raises one. */
  function Translations(trs: seq<TranslationRecord>, wiktPos: string, fnPos: FnPos, config: Config)
    : (r: Result<seq<Translation>, IngestError>)
    ensures r.Success? ==> forall i :: 0 <= i < |r.value| ==>
              r.value[i].wiktPos == wiktPos && r.value[i].fnPos == fnPos
  {
    if trs == [] then Success([])
    else
      match Translations(trs[..|trs| - 1], wiktPos, fnPos, config)
      case Failure(err) => Failure(err)
      case Success(prev) =>
        match TranslationOf(trs[|trs| - 1], wiktPos, fnPos, config)
        case Failure(err) => Failure(err)
        case Success(None) => Success(prev)
        case Success(Some(t)) => Success(prev + [t])
  }

  /** Record j is the first translation record that raises an error. */
  ghost predicate FirstFailing(trs: seq<TranslationRecord>, wiktPos: string, fnPos: FnPos, config: Config, j: int) {
    0 <= j < |trs| &&
    TranslationOf(trs[j], wiktPos, fnPos, config).Failure? &&
    forall i :: 0 <= i < j ==> TranslationOf(trs[i], wiktPos, fnPos, config).Success?
  }

  /** Building the translations fails exactly when some record raises an error,
      and then with the error of the first such record. */
  lemma {:induction false} TranslationsFailOnFirstError(trs: seq<TranslationRecord>, wiktPos: string,
                                                        fnPos: FnPos, config: Config)
    ensures Translations(trs, wiktPos, fnPos, config).Success? <==>
            forall i :: 0 <= i < |trs| ==> TranslationOf(trs[i], wiktPos, fnPos, config).Success?
    ensures Translations(trs, wiktPos, fnPos, config).Failure? ==>
              exists j :: FirstFailing(trs, wiktPos, fnPos, config, j) &&
                          Translations(trs, wiktPos, fnPos, config).error ==
                          TranslationOf(trs[j], wiktPos, fnPos, config).error
  {
    if trs != [] {
      var n := |trs| - 1;
      var prefix := trs[..n];
      TranslationsFailOnFirstError(prefix, wiktPos, fnPos, config);
      assert forall i :: 0 <= i < n ==> prefix[i] == trs[i];
      if Translations(prefix, wiktPos, fnPos, config).Failure? {
        var j :| FirstFailing(prefix, wiktPos, fnPos, config, j) &&
                 Translations(prefix, wiktPos, fnPos, config).error ==
                 TranslationOf(prefix[j], wiktPos, fnPos, config).error;
        assert FirstFailing(trs, wiktPos, fnPos, config, j);
      } else if TranslationOf(trs[n], wiktPos, fnPos, config).Failure? {
        assert FirstFailing(trs, wiktPos, fnPos, config, n);
      }
    }
  }

  /** Once a prefix of the records has failed, the whole list fails the same way. */
  lemma {:induction false} TranslationsFailurePersists(trs: seq<TranslationRecord>, wiktPos: string,
                                                       fnPos: FnPos, config: Config, k: nat)
    requires k <= |trs| && Translations(trs[..k], wiktPos, fnPos, config).Failure?
    ensures Translations(trs, wiktPos, fnPos, config) == Translations(trs[..k], wiktPos, fnPos, config)
    decreases |trs| - k
  {
    if k < |trs| {
      assert trs[..k + 1][..k] == trs[..k];
      TranslationsFailurePersists(trs, wiktPos, fnPos, config, k + 1);
    } else {
      assert trs[..k] == trs;
    }
  }

  /** The translation loop of the loader. */
  method BuildTranslations(trs: seq<TranslationRecord>, wiktPos: string, fnPos: FnPos, config: Config)
    returns (r: Result<seq<Translation>, IngestError>)
    ensures r == Translations(trs, wiktPos, fnPos, config)
  {
    var translations: seq<Translation> := [];
    var i := 0;
    while i < |trs|
      invariant 0 <= i <= |trs|
      invariant Translations(trs[..i], wiktPos, fnPos, config) == Success(translations)
    {
      assert trs[..i + 1][..i] == trs[..i];
      var translationInfo := trs[i];
      if translationInfo.lang.None? {
        TranslationsFailurePersists(trs, wiktPos, fnPos, config, i + 1);
        return Failure(MissingTranslationLang);
      }
      var targetLang := translationInfo.lang.value;
      if translationInfo.sense.Some? {
        if targetLang in config.translationLanguages {
          targetLang := config.translationLanguages[targetLang];
          if translationInfo.word.None? {
            TranslationsFailurePersists(trs, wiktPos, fnPos, config, i + 1);
            return Failure(MissingTranslationWord);
          }
          var targetLemma := translationInfo.word.value;
          if targetLang !in config.language2info {
            TranslationsFailurePersists(trs, wiktPos, fnPos, config, i + 1);
            return Failure(UnknownLanguage(targetLang));
          }
          var targetNamespace := config.language2info[targetLang].namespace;
          var translationId := targetNamespace + targetLemma + "#" + Title(wiktPos);
          var translation := Translation(targetLang, targetLemma, wiktPos, fnPos, translationId,
                                         translationInfo.sense.value);
          translations := translations + [translation];
        }
      }
      i := i + 1;
    }
    assert trs[..i] == trs;
    r := Success(translations);
  }

  // ---------------------------------------------------------------------------
  // One record
  // ---------------------------------------------------------------------------

  /** The entry a supported record starts from, before senses and translations. */
  function EntryHead(info: Record, config: Config, fnPos: FnPos): LemmaPos
    requires info.word.Some? && info.lang.Some? && info.lang.value in config.language2info && info.pos.Some?
  {
    var langInfo := config.language2info[info.lang.value];
    LemmaPos(langInfo.namespace, langInfo.shortNamespace, info.lang.value, info.word.value,
             info.pos.value, fnPos, [], [])
  }

  /** The ranked senses of a supported record. */
  function RecordSenses(info: Record, head: LemmaPos): seq<Sense> {
    Ranked(if info.senses.Some? then GlossedSenses(head, info.senses.value) else [])
  }

  /** The translations of a supported record. */
  function RecordTranslations(info: Record, head: LemmaPos, config: Config): Result<seq<Translation>, IngestError> {
    if info.translations.Some? then Translations(info.translations.value, head.wiktPos, head.fnPos, config)
    else Success([])
  }

  /** What the loader does with one record, in the order it reads the fields:
      the lemma first (even on a redirect), then the language, the part of
      speech, the senses, the translations and the sense threshold. */
  function Ingest(info: Record, config: Config, minNumSenses: int): Outcome {
    if info.word.None? then Failed(MissingWord)
    else if info.lang.None? then Skipped(NoLanguage)
    else if info.lang.value !in config.language2info then Skipped(UnsupportedLanguage(info.lang.value))
    else if info.pos.None? then Failed(MissingPos)
    else
      match MapWiktPos2FnPos(info.pos.value)
      case None => Skipped(UnsupportedPos(info.pos.value))
      case Some(fnPos) =>
        var head := EntryHead(info, config, fnPos);
        var senses := RecordSenses(info, head);
        match RecordTranslations(info, head, config)
        case Failure(err) => Failed(err)
        case Success(translations) =>
          if |senses| >= minNumSenses then
            Appended(KeyOf(head), head.(senses := senses, translations := translations))
          else Skipped(TooFewSenses(|senses|))
  }

  /** A record without a lemma is a hard error, whatever else it holds. */
  lemma MissingWordIsFatal(info: Record, config: Config, minNumSenses: int)
    requires info.word.None?
    ensures Ingest(info, config, minNumSenses) == Failed(MissingWord)
  {
  }

  /** A record with a lemma but no language, or a language that is not
      configured, is skipped. */
  lemma UnsupportedLanguageIsSkipped(info: Record, config: Config, minNumSenses: int)
    requires info.word.Some?
    requires info.lang.None? || info.lang.value !in config.language2info
    ensures Ingest(info, config, minNumSenses).Skipped?
  {
  }

  /** A record of a supported language with no part of speech is a hard error;
      one whose part of speech is not a noun, verb or adjective is skipped. */
  lemma PartOfSpeechFilter(info: Record, config: Config, minNumSenses: int)
    requires info.word.Some? && info.lang.Some? && info.lang.value in config.language2info
    ensures info.pos.None? ==> Ingest(info, config, minNumSenses) == Failed(MissingPos)
    ensures info.pos.Some? && info.pos.value !in {"noun", "verb", "adj"} ==>
              Ingest(info, config, minNumSenses) == Skipped(UnsupportedPos(info.pos.value))
  {
  }

  /** An appended entry is filed under its own key, is well formed, and has at
      least the minimum number of senses. */
  lemma AppendedEntryIsWellFormed(info: Record, config: Config, minNumSenses: int)
    requires Ingest(info, config, minNumSenses).Appended?
    ensures var o := Ingest(info, config, minNumSenses);
            KeyOf(o.entry) == o.key && WellFormed(o.entry) && |o.entry.senses| >= minNumSenses
  {
    var fnPos := MapWiktPos2FnPos(info.pos.value).value;
    var head := EntryHead(info, config, fnPos);
    var glossed := if info.senses.Some? then GlossedSenses(head, info.senses.value) else [];
    var e := Ingest(info, config, minNumSenses).entry;
    assert e.senses == Ranked(glossed);
    forall i | 0 <= i < |e.senses| ensures SenseOf(e.senses[i], e) {
      assert SenseOf(glossed[i], head);
    }
  }

  /** The senses of an appended entry are exactly its glossed sense records, in
      order, ranked 1..N, each idiomatic exactly when its record is tagged so. */
  lemma AppendedSensesAreRankedGlossedRecords(info: Record, config: Config, minNumSenses: int)
    requires Ingest(info, config, minNumSenses).Appended?
    ensures var e := Ingest(info, config, minNumSenses).entry;
            var rs := if info.senses.Some? then info.senses.value else [];
            |e.senses| == |GlossedIndices(rs)| &&
            forall i :: 0 <= i < |e.senses| ==>
              e.senses[i].glosses == rs[GlossedIndices(rs)[i]].glosses.value &&
              e.senses[i].idiomatic == IsIdiomatic(rs[GlossedIndices(rs)[i]]) &&
              e.senses[i].senseRank == Some(i + 1)
  {
    var fnPos := MapWiktPos2FnPos(info.pos.value).value;
    var head := EntryHead(info, config, fnPos);
    var rs := if info.senses.Some? then info.senses.value else [];
    GlossedSensesFollowRecords(head, rs);
    assert GlossedSenses(head, []) == [];
  }

  /** The entry is appended exactly when the record passes the filters, its
      translations raise no error, and it has at least the minimum number of
      senses. */
  lemma AppendedIffEnoughSenses(info: Record, config: Config, minNumSenses: int, fnPos: FnPos)
    requires info.word.Some? && info.lang.Some? && info.lang.value in config.language2info
    requires info.pos.Some? && MapWiktPos2FnPos(info.pos.value) == Some(fnPos)
    requires RecordTranslations(info, EntryHead(info, config, fnPos), config).Success?
    ensures Ingest(info, config, minNumSenses).Appended? <==>
            |RecordSenses(info, EntryHead(info, config, fnPos))| >= minNumSenses
    ensures Ingest(info, config, minNumSenses).Appended? ==>
              Ingest(info, config, minNumSenses).key == (info.lang.value, info.word.value, fnPos)
  {
  }

  // ---------------------------------------------------------------------------
  // Grouping
  // ---------------------------------------------------------------------------

  /** Appends `e` to the end of the candidate list of `key`, creating the list
      when the key is new; no other list changes. */
  function AppendEntry(groups: map<Key, seq<LemmaPos>>, key: Key, e: LemmaPos)
    : (r: map<Key, seq<LemmaPos>>)
    ensures r.Keys == groups.Keys + {key}
    ensures r[key] == (if key in groups then groups[key] else []) + [e]
    ensures forall k :: k in groups && k != key ==> r[k] == groups[k]
  {
    groups[key := (if key in groups then groups[key] else []) + [e]]
  }

  /** The body of the loader's record loop up to the threshold test: the
      filters, the entry with its senses and translations, and the decision. */
  method BuildEntry(info: Record, config: Config, minNumSenses: int) returns (outcome: Outcome)
    ensures outcome == Ingest(info, config, minNumSenses)
  {
    if info.word.None? {
      return Failed(MissingWord);
    }
    var headword := info.word.value;
    if info.lang.None? {
      return Skipped(NoLanguage);
    }
    var lang := info.lang.value;
    if lang !in config.language2info {
      return Skipped(UnsupportedLanguage(lang));
    }
    var namespace := config.language2info[lang].namespace;
    var shortNamespace := config.language2info[lang].shortNamespace;
    if info.pos.None? {
      return Failed(MissingPos);
    }
    var wiktPos := info.pos.value;
    var fnPos := MapWiktPos2FnPos(wiktPos);
    if fnPos.None? {
      return Skipped(UnsupportedPos(wiktPos));
    }
    var key := (lang, headword, fnPos.value);
    var lemmaObj := LemmaPos(namespace, shortNamespace, lang, headword, wiktPos, fnPos.value, [], []);
    assert lemmaObj == EntryHead(info, config, fnPos.value);
    if info.senses.Some? {
      var senses := BuildSenses(lemmaObj, info.senses.value);
      lemmaObj := lemmaObj.(senses := senses);
    }
    lemmaObj := SetSenseRanks(lemmaObj);
    if info.translations.Some? {
      var translations := BuildTranslations(info.translations.value, wiktPos, fnPos.value, config);
      if translations.Failure? {
        return Failed(translations.error);
      }
      lemmaObj := lemmaObj.(translations := translations.value);
    }
    if |lemmaObj.senses| >= minNumSenses {
      outcome := Appended(key, lemmaObj);
    } else {
      outcome := Skipped(TooFewSenses(|lemmaObj.senses|));
    }
  }


  /** Appending a well-formed entry under its own key keeps the grouping map
      valid. */
  lemma AppendEntryKeepsGroupsValid(groups: map<Key, seq<LemmaPos>>, key: Key, e: LemmaPos)
    requires GroupsValid(groups) && KeyOf(e) == key && WellFormed(e)
    ensures GroupsValid(AppendEntry(groups, key, e))
  {
  }

  /** The loader's record loop body: the entry is appended to the end of its
      key's list when the record yields one; nothing else changes. */
  method IngestRecord(w: Wiktionary, info: Record, config: Config, minNumSenses: int)
    returns (outcome: Outcome)
    requires w.Valid()
    modifies w
    ensures w.Valid()
    ensures outcome == Ingest(info, config, minNumSenses)
    ensures w.canonical == old(w.canonical) && w.wiktTranslations == old(w.wiktTranslations)
    ensures w.groups == if outcome.Appended? then AppendEntry(old(w.groups), outcome.key, outcome.entry)
                        else old(w.groups)
  {
    outcome := BuildEntry(info, config, minNumSenses);
    if outcome.Appended? {
      AppendedEntryIsWellFormed(info, config, minNumSenses);
      AppendEntryKeepsGroupsValid(w.groups, outcome.key, outcome.entry);
      w.groups := AppendEntry(w.groups, outcome.key, outcome.entry);
    }
  }

  // ---------------------------------------------------------------------------
  // The whole run
  // ---------------------------------------------------------------------------

  /** The grouping map after ingesting `records` in order, or the first hard
      error. */
  function GroupAll(records: seq<Record>, config: Config, minNumSenses: int)
    : Result<map<Key, seq<LemmaPos>>, IngestError>
  {
    if records == [] then Success(map[])
    else
      match GroupAll(records[..|records| - 1], config, minNumSenses)
      case Failure(err) => Failure(err)
      case Success(groups) =>
        match Ingest(records[|records| - 1], config, minNumSenses)
        case Failed(err) => Failure(err)
        case Skipped(_) => Success(groups)
        case Appended(key, e) => Success(AppendEntry(groups, key, e))
  }

  /** Every grouped entry has at least the minimum number of senses, is filed
      under its own key and is well formed, and no list is empty. */
  lemma {:induction false} GroupAllMeetsThreshold(records: seq<Record>, config: Config, minNumSenses: int)
    requires GroupAll(records, config, minNumSenses).Success?
    ensures var groups := GroupAll(records, config, minNumSenses).value;
            GroupsValid(groups) &&
            forall k, i :: k in groups && 0 <= i < |groups[k]| ==> |groups[k][i].senses| >= minNumSenses
  {
    if records != [] {
      var prefix := records[..|records| - 1];
      GroupAllMeetsThreshold(prefix, config, minNumSenses);
      var last := records[|records| - 1];
      if Ingest(last, config, minNumSenses).Appended? {
        AppendedEntryIsWellFormed(last, config, minNumSenses);
      }
    }
  }

  /** Every canonical entry has at least the minimum number of senses: an entry
      below the threshold is never chosen, even as the only candidate. */
  lemma CanonicalEntriesMeetThreshold(records: seq<Record>, config: Config, minNumSenses: int)
    requires GroupAll(records, config, minNumSenses).Success?
    ensures var groups := GroupAll(records, config, minNumSenses).value;
            NoEmptyGroup(groups) &&
            forall k :: k in CanonicalMap(groups) ==> |CanonicalMap(groups)[k].senses| >= minNumSenses
  {
    var groups := GroupAll(records, config, minNumSenses).value;
    GroupAllMeetsThreshold(records, config, minNumSenses);
    forall k | k in CanonicalMap(groups) ensures |CanonicalMap(groups)[k].senses| >= minNumSenses {
      var c := Canonical(groups[k]);
      assert c in groups[k];
      var i :| 0 <= i < |groups[k]| && groups[k][i] == c;
    }
  }

  /** The loader: ingests the records in order, stopping at the first hard
      error; then merges the candidates and builds the translation index. */
  method Load(records: seq<Record>, config: Config, minNumSenses: int)
    returns (w: Wiktionary, error: Option<IngestError>)
    ensures fresh(w) && w.Valid()
    ensures GroupAll(records, config, minNumSenses) ==
            if error.None? then Success(w.groups) else Failure(error.value)
    ensures error.None? ==> w.canonical == CanonicalMap(w.groups) &&
                            IndexOf(w.wiktTranslations, AllLinks(w.canonical))
  {
    w := new Wiktionary();
    var i := 0;
    while i < |records|
      invariant 0 <= i <= |records|
      invariant w.Valid()
      invariant w.canonical == map[]
      invariant GroupAll(records[..i], config, minNumSenses) == Success(w.groups)
    {
      assert records[..i + 1][..i] == records[..i];
      var outcome := IngestRecord(w, records[i], config, minNumSenses);
      if outcome.Failed? {
        GroupAllFailurePersists(records, config, minNumSenses, i + 1);
        return w, Some(outcome.error);
      }
      i := i + 1;
    }
    assert records[..i] == records;
    w.MergeLemmaObjs();
    w.CreateTranslationDict();
    error := None;
  }

  /** Once a prefix of the records has failed, the run fails the same way. */
  lemma {:induction false} GroupAllFailurePersists(records: seq<Record>, config: Config, minNumSenses: int, k: nat)
    requires k <= |records| && GroupAll(records[..k], config, minNumSenses).Failure?
    ensures GroupAll(records, config, minNumSenses) == GroupAll(records[..k], config, minNumSenses)
    decreases |records| - k
  {
    if k < |records| {
      assert records[..k + 1][..k] == records[..k];
      GroupAllFailurePersists(records, config, minNumSenses, k + 1);
    } else {
      assert records[..k] == records;
    }
  }

  // ---------------------------------------------------------------------------
  // A worked case
  // ---------------------------------------------------------------------------

  /** An English noun page for "bank" with the given sense and translation records. */
  function BankPage(senses: seq<SenseRecord>, translations: seq<TranslationRecord>): Record {
    Record(Some("bank"), Some("English"), Some("noun"), Some(senses), Some(translations))
  }

  /** A configuration with English and Dutch, where Dutch translations are kept
      under "Dutch". */
  predicate BankConfig(config: Config) {
    "English" in config.language2info && "Dutch" in config.language2info &&
    config.translationLanguages == map["Dutch" := "Dutch"]
  }

  /** The translation record of Dutch "bank". */
  function DutchBank(gloss: string): TranslationRecord {
    TranslationRecord(Some("Dutch"), Some("bank"), Some(gloss))
  }

  /** A page with one glossed sense and no translations becomes an English noun
      entry with one sense. */
  lemma OneSenseBankPageIngested(g: SenseRecord, config: Config)
    requires g.glosses.Some? && BankConfig(config)
    ensures var outcome := Ingest(BankPage([g], []), config, 1);
            outcome.Appended? && outcome.key == ("English", "bank", N) &&
            |outcome.entry.senses| == 1
  {
    assert [g][..0] == [];
  }

  /** A page with three glossed senses and the Dutch translation "bank" becomes
      an English noun entry with three senses and that one translation. */
  lemma ThreeSenseBankPageIngested(g: SenseRecord, gloss: string, config: Config)
    requires g.glosses.Some? && BankConfig(config)
    ensures var outcome := Ingest(BankPage([g, g, g], [DutchBank(gloss)]), config, 1);
            outcome.Appended? && outcome.key == ("English", "bank", N) &&
            |outcome.entry.senses| == 3 && |outcome.entry.translations| == 1 &&
            outcome.entry.translations[0].lang == "Dutch" &&
            outcome.entry.translations[0].headword == "bank" &&
            outcome.entry.translations[0].fnPos == N
  {
    var head := EntryHead(BankPage([g, g, g], [DutchBank(gloss)]), config, N);
    assert [g, g, g][..2] == [g, g];
    assert [g, g][..1] == [g];
    assert [g][..0] == [];
    assert |GlossedSenses(head, [g])| == 1;
    assert |GlossedSenses(head, [g, g])| == 2;
    assert |GlossedSenses(head, [g, g, g])| == 3;
    assert [DutchBank(gloss)][..0] == [];
    assert config.translationLanguages["Dutch"] == "Dutch";
    var t := TranslationOf(DutchBank(gloss), "noun", N, config);
    assert t.Success? && t.value.Some?;
    assert [] + [t.value.value] == [t.value.value];
    assert Translations([DutchBank(gloss)], "noun", N, config) == Success([t.value.value]);
  }

  /** Two records that both yield an entry for the same key are grouped
      together, in record order. */
  lemma GroupAllOfTwo(a: Record, b: Record, config: Config, minNumSenses: int)
    requires Ingest(a, config, minNumSenses).Appended? && Ingest(b, config, minNumSenses).Appended?
    requires Ingest(a, config, minNumSenses).key == Ingest(b, config, minNumSenses).key
    ensures GroupAll([a, b], config, minNumSenses) ==
            Success(map[Ingest(a, config, minNumSenses).key :=
                          [Ingest(a, config, minNumSenses).entry, Ingest(b, config, minNumSenses).entry]])
  {
    var key := Ingest(a, config, minNumSenses).key;
    var ea, eb := Ingest(a, config, minNumSenses).entry, Ingest(b, config, minNumSenses).entry;
    assert [a, b][..1] == [a];
    assert [a][..0] == [];
    assert GroupAll([a], config, minNumSenses) == Success(AppendEntry(map[], key, ea));
    assert [] + [ea] == [ea] && [ea] + [eb] == [ea, eb];
    assert AppendEntry(map[], key, ea) == map[key := [ea]];
    assert AppendEntry(map[key := [ea]], key, eb) == map[key := [ea, eb]];
  }

  /** Loading a one-sense and a three-sense English noun page for "bank", the
      second translated into Dutch "bank", with a minimum of one sense: the run
      succeeds and groups both pages under one key, in record order. The
      candidates meet the requirements of `BankScenario`, which gives the merge
      and the index. */
  lemma BankPagesGrouped(g: SenseRecord, gloss: string, config: Config)
    returns (e1: LemmaPos, e3: LemmaPos, t: Translation)
    requires g.glosses.Some? && BankConfig(config)
    ensures GroupAll([BankPage([g], []), BankPage([g, g, g], [DutchBank(gloss)])], config, 1) ==
            Success(map[("English", "bank", N) := [e1, e3]])
    ensures KeyOf(e1) == KeyOf(e3) == ("English", "bank", N)
    ensures |e1.senses| == 1 && |e3.senses| == 3 && e3.translations == [t]
    ensures t.lang == "Dutch" && t.headword == "bank" && t.fnPos == N
  {
    var one, three := BankPage([g], []), BankPage([g, g, g], [DutchBank(gloss)]);
    OneSenseBankPageIngested(g, config);
    ThreeSenseBankPageIngested(g, gloss, config);
    e1 := Ingest(one, config, 1).entry;
    e3 := Ingest(three, config, 1).entry;
    t := e3.translations[0];
    assert e3.translations == [t];
    GroupAllOfTwo(one, three, config, 1);
  }
}
