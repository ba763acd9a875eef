/** The entities of the Wiktionary loader (an entry per language, lemma and part of
    speech, its senses and outbound translations) and the accumulator that groups
    entries, keeps one canonical entry per key and builds the bidirectional
    translation index. */
module WiktionaryClasses {
  import opened Wrappers

  /** The FrameNet part of speech an entry is filed under. */
  datatype FnPos = N | V | A

  /** Maps a Wiktionary part of speech to a FrameNet one; only nouns, verbs and
      adjectives are supported. */
  function MapWiktPos2FnPos(wiktPos: string): (fnPos: Option<FnPos>)
    ensures fnPos == Some(N) <==> wiktPos == "noun"
    ensures fnPos == Some(V) <==> wiktPos == "verb"
    ensures fnPos == Some(A) <==> wiktPos == "adj"
    ensures fnPos == None <==> wiktPos !in {"noun", "verb", "adj"}
  {
    if wiktPos == "noun" then Some(N)
    else if wiktPos == "verb" then Some(V)
    else if wiktPos == "adj" then Some(A)
    else None
  }

  // ---------------------------------------------------------------------------
  // Title casing and decimal rendering, as used in the RDF identifiers.
  // ---------------------------------------------------------------------------

  predicate IsAsciiLetter(c: char) {
    'a' <= c <= 'z' || 'A' <= c <= 'Z'
  }

  function AsciiUpper(c: char): char {
    if 'a' <= c <= 'z' then (c as int - 32) as char else c
  }

  function AsciiLower(c: char): char {
    if 'A' <= c <= 'Z' then (c as int + 32) as char else c
  }

  /** Title casing of `s` when the character before it was (`afterLetter`) or was
      not a letter: a letter that follows a letter becomes lower case, any other
      letter upper case, and every other character is kept. */
  function TitleFrom(s: string, afterLetter: bool): (r: string)
    ensures |r| == |s|
    ensures forall i :: 0 <= i < |s| ==> IsAsciiLetter(r[i]) == IsAsciiLetter(s[i])
  {
    if s == [] then []
    else
      var c := s[0];
      var c' := if !IsAsciiLetter(c) then c
                else if afterLetter then AsciiLower(c) else AsciiUpper(c);
      [c'] + TitleFrom(s[1..], IsAsciiLetter(c))
  }

  /** `str.title()`: every word starts with a capital, the rest of it is lower case. */
  function Title(s: string): (r: string)
    ensures |r| == |s|
  {
    TitleFrom(s, false)
  }

  /** Title casing a title-cased string changes nothing. */
  lemma {:induction false} TitleFromIdempotent(s: string, afterLetter: bool)
    ensures TitleFrom(TitleFrom(s, afterLetter), afterLetter) == TitleFrom(s, afterLetter)
    decreases |s|
  {
    if s != [] {
      var t := TitleFrom(s, afterLetter);
      assert t[1..] == TitleFrom(s[1..], IsAsciiLetter(s[0]));
      TitleFromIdempotent(s[1..], IsAsciiLetter(s[0]));
    }
  }

  /** The three supported parts of speech appear in identifiers as "Noun", "Verb"
      and "Adj". */
  lemma TitleOfSupportedPos(wiktPos: string)
    requires MapWiktPos2FnPos(wiktPos).Some?
    ensures Title(wiktPos) == match MapWiktPos2FnPos(wiktPos)
                              case Some(N) => "Noun"
                              case Some(V) => "Verb"
                              case Some(A) => "Adj"
  {
    if wiktPos == "noun" {
      assert Title("noun") == ['N'] + TitleFrom("oun", true);
      assert TitleFrom("oun", true) == ['o'] + TitleFrom("un", true);
      assert TitleFrom("un", true) == ['u'] + TitleFrom("n", true);
      assert TitleFrom("n", true) == ['n'] + TitleFrom("", true);
    } else if wiktPos == "verb" {
      assert Title("verb") == ['V'] + TitleFrom("erb", true);
      assert TitleFrom("erb", true) == ['e'] + TitleFrom("rb", true);
      assert TitleFrom("rb", true) == ['r'] + TitleFrom("b", true);
      assert TitleFrom("b", true) == ['b'] + TitleFrom("", true);
    } else {
      assert Title("adj") == ['A'] + TitleFrom("dj", true);
      assert TitleFrom("dj", true) == ['d'] + TitleFrom("j", true);
      assert TitleFrom("j", true) == ['j'] + TitleFrom("", true);
    }
  }

  function DigitChar(d: nat): char
    requires d < 10
  {
    ('0' as int + d) as char
  }

  /** The decimal rendering of a natural number. */
  function NatToString(n: nat): (s: string)
    ensures |s| > 0
    ensures forall i :: 0 <= i < |s| ==> '0' <= s[i] <= '9'
  {
    if n < 10 then [DigitChar(n)] else NatToString(n / 10) + [DigitChar(n % 10)]
  }

  /** The number a string of decimal digits denotes. */
  function DigitsValue(s: string): nat
    requires forall i :: 0 <= i < |s| ==> '0' <= s[i] <= '9'
  {
    if s == [] then 0
    else DigitsValue(s[..|s| - 1]) * 10 + (s[|s| - 1] as int - '0' as int)
  }

  /** Reading back the decimal rendering gives the number: the rendering loses
      nothing. */
  lemma {:induction false} NatToStringRoundTrip(n: nat)
    ensures DigitsValue(NatToString(n)) == n
  {
    if n >= 10 {
      var s := NatToString(n);
      assert s[..|s| - 1] == NatToString(n / 10);
      NatToStringRoundTrip(n / 10);
    }
  }

  /** How a rank is rendered in a sense identifier; a sense that was never ranked
      shows Python's "None". */
  function RankText(rank: Option<nat>): string {
    match rank
    case Some(n) => NatToString(n)
    case None => "None"
  }

  // ---------------------------------------------------------------------------
  // Entities
  // ---------------------------------------------------------------------------

  /** One glossed meaning of an entry; `senseRank` is unset until the entry's
      senses are ranked. */
  datatype Sense = Sense(
    namespace: string,
    shortNamespace: string,
    lang: string,
    headword: string,
    wiktPos: string,
    fnPos: FnPos,
    glosses: seq<string>,
    idiomatic: bool,
    senseRank: Option<nat>)
  {
    function FullRdfUri(): string {
      namespace + headword + "#" + Title(wiktPos)
    }

    function ShortRdfUri(): string {
      shortNamespace + ":" + headword + "#" + Title(wiktPos) + "-" + RankText(senseRank)
    }
  }

  /** An outbound translation; its parts of speech are the owning entry's. */
  datatype Translation = Translation(
    lang: string,
    headword: string,
    wiktPos: string,
    fnPos: FnPos,
    translationId: string,
    gloss: string)

  /** An entry: one Wiktionary page for a language, lemma and part of speech. */
  datatype LemmaPos = LemmaPos(
    namespace: string,
    shortNamespace: string,
    lang: string,
    headword: string,
    wiktPos: string,
    fnPos: FnPos,
    senses: seq<Sense>,
    translations: seq<Translation>)
  {
    function FullRdfUri(): string {
      namespace + headword + "#" + Title(wiktPos)
    }

    function ShortRdfUri(): string {
      shortNamespace + ":" + headword + "#" + Title(wiktPos)
    }
  }

  /** The senses after ranking: the sense at position i gets rank i + 1 and keeps
      everything else. */
  function Ranked(senses: seq<Sense>): (r: seq<Sense>)
    ensures |r| == |senses|
    ensures forall i :: 0 <= i < |r| ==> r[i].senseRank == Some(i + 1)
    ensures forall i :: 0 <= i < |r| ==> r[i] == senses[i].(senseRank := r[i].senseRank)
  {
    if senses == [] then []
    else
      var n := |senses|;
      Ranked(senses[..n - 1]) + [senses[n - 1].(senseRank := Some(n))]
  }

  /** `LemmaPos.set_sense_ranks`: numbers the senses 1, 2, ... in list order. */
  method SetSenseRanks(e: LemmaPos) returns (ranked: LemmaPos)
    ensures ranked == e.(senses := Ranked(e.senses))
  {
    var senses := e.senses;
    var i := 0;
    while i < |senses|
      invariant 0 <= i <= |senses| == |e.senses|
      invariant senses[..i] == Ranked(e.senses[..i])
      invariant senses[i..] == e.senses[i..]
    {
      assert e.senses[..i + 1][..i] == e.senses[..i];
      senses := senses[i := senses[i].(senseRank := Some(i + 1))];
      i := i + 1;
    }
    assert e.senses[..i] == e.senses;
    ranked := e.(senses := senses);
  }

  /** The senses are ranked 1..N in list order. */
  ghost predicate SensesRanked(senses: seq<Sense>) {
    forall i :: 0 <= i < |senses| ==> senses[i].senseRank == Some(i + 1)
  }

  /** A sense carries the identity of the entry it belongs to. */
  ghost predicate SenseOf(s: Sense, e: LemmaPos) {
    s.namespace == e.namespace && s.shortNamespace == e.shortNamespace &&
    s.lang == e.lang && s.headword == e.headword && s.wiktPos == e.wiktPos && s.fnPos == e.fnPos
  }

  /** What every entry the loader builds satisfies: a supported part of speech,
      senses belonging to it and ranked 1..N, translations inheriting its part of
      speech. */
  ghost predicate WellFormed(e: LemmaPos) {
    MapWiktPos2FnPos(e.wiktPos) == Some(e.fnPos) &&
    SensesRanked(e.senses) &&
    (forall i :: 0 <= i < |e.senses| ==> SenseOf(e.senses[i], e)) &&
    (forall i :: 0 <= i < |e.translations| ==>
       e.translations[i].wiktPos == e.wiktPos && e.translations[i].fnPos == e.fnPos)
  }

  /** How a FrameNet part of speech shows in identifiers. */
  function PosLabel(p: FnPos): string {
    match p
    case N => "Noun"
    case V => "Verb"
    case A => "Adj"
  }

  /** The identifiers of a well-formed entry end in "#" and its part of speech
      label, and the short identifier is the full one with the namespace replaced
      by the short namespace and a colon. */
  lemma EntryUrisShowPartOfSpeech(e: LemmaPos)
    requires WellFormed(e)
    ensures e.FullRdfUri() == e.namespace + e.headword + "#" + PosLabel(e.fnPos)
    ensures e.ShortRdfUri() == e.shortNamespace + ":" + e.FullRdfUri()[|e.namespace|..]
  {
    PosLabelIsTitle(e.wiktPos, e.fnPos);
    var rest := e.headword + "#" + PosLabel(e.fnPos);
    assert e.FullRdfUri() == e.namespace + rest;
    DropPrefix(e.namespace, rest);
  }

  /** The label of a supported part of speech is its title-cased tag. */
  lemma PosLabelIsTitle(wiktPos: string, fnPos: FnPos)
    requires MapWiktPos2FnPos(wiktPos) == Some(fnPos)
    ensures Title(wiktPos) == PosLabel(fnPos)
  {
    TitleOfSupportedPos(wiktPos);
  }

  /** Dropping a prefix of a concatenation leaves the rest. */
  lemma DropPrefix(a: string, b: string)
    ensures (a + b)[|a|..] == b
  {
  }

  /** The identifiers of a ranked sense extend its entry's: the same full
      identifier, and the short one followed by "-" and the sense's rank. */
  lemma SenseUrisExtendEntryUris(e: LemmaPos, i: nat)
    requires WellFormed(e) && i < |e.senses|
    ensures e.senses[i].FullRdfUri() == e.FullRdfUri()
    ensures e.senses[i].ShortRdfUri() == e.ShortRdfUri() + "-" + NatToString(i + 1)
  {
  }

  // ---------------------------------------------------------------------------
  // Choosing the canonical entry of a key
  // ---------------------------------------------------------------------------

  /** The entry kept among the candidates of one key: scanning in order, a later
      candidate replaces the current choice only when it has strictly more senses. */
  function Canonical(objs: seq<LemmaPos>): (c: LemmaPos)
    requires |objs| > 0
    ensures c in objs
  {
    if |objs| == 1 then objs[0]
    else
      var prev := Canonical(objs[..|objs| - 1]);
      var last := objs[|objs| - 1];
      if |last.senses| > |prev.senses| then last else prev
  }

  /** Position i holds a candidate with the most senses, and no earlier candidate
      has as many. */
  ghost predicate IsFirstMaximum(objs: seq<LemmaPos>, i: int) {
    0 <= i < |objs| &&
    (forall j :: 0 <= j < |objs| ==> |objs[j].senses| <= |objs[i].senses|) &&
    (forall j :: 0 <= j < i ==> |objs[j].senses| < |objs[i].senses|)
  }

  /** The canonical entry is the first candidate with the largest sense count. */
  lemma {:induction false} CanonicalIsFirstMaximum(objs: seq<LemmaPos>)
    requires |objs| > 0
    ensures exists i :: IsFirstMaximum(objs, i) && Canonical(objs) == objs[i]
  {
    if |objs| == 1 {
      assert IsFirstMaximum(objs, 0);
    } else {
      var n := |objs| - 1;
      var prefix := objs[..n];
      CanonicalIsFirstMaximum(prefix);
      var i :| IsFirstMaximum(prefix, i) && Canonical(prefix) == prefix[i];
      assert prefix[i] == objs[i];
      FirstMaximumExtends(objs, i);
    }
  }

  /** Appending a candidate keeps the first maximum unless the new one has
      strictly more senses, in which case the new one is the first maximum. */
  lemma FirstMaximumExtends(objs: seq<LemmaPos>, i: int)
    requires |objs| > 1 && IsFirstMaximum(objs[..|objs| - 1], i)
    ensures |objs[|objs| - 1].senses| > |objs[i].senses| ==> IsFirstMaximum(objs, |objs| - 1)
    ensures |objs[|objs| - 1].senses| <= |objs[i].senses| ==> IsFirstMaximum(objs, i)
  {
    var n := |objs| - 1;
    assert forall j :: 0 <= j < n ==> objs[..n][j] == objs[j];
  }

  /** There is only one first maximum, so the choice does not depend on anything
      but the candidates and their order. */
  lemma FirstMaximumIsUnique(objs: seq<LemmaPos>, i: int, j: int)
    requires IsFirstMaximum(objs, i) && IsFirstMaximum(objs, j)
    ensures i == j
  {
    assert |objs[i].senses| <= |objs[j].senses| <= |objs[i].senses|;
  }

  /** A candidate appended later with no more senses than the current choice
      never replaces it. */
  lemma CanonicalKeepsEarlierOnTie(objs: seq<LemmaPos>, later: LemmaPos)
    requires |objs| > 0 && |later.senses| <= |Canonical(objs).senses|
    ensures Canonical(objs + [later]) == Canonical(objs)
  {
    assert (objs + [later])[..|objs|] == objs;
  }

  /** The arg-max loop of `merge_lemma_objs` for one key. */
  method ChooseLemmaObj(objs: seq<LemmaPos>) returns (chosen: LemmaPos)
    requires |objs| > 0
    ensures chosen == Canonical(objs)
  {
    if |objs| == 1 {
      chosen := objs[0];
    } else {
      var maxNumSenses := -1;
      var choice: Option<LemmaPos> := None;
      var i := 0;
      while i < |objs|
        invariant 0 <= i <= |objs|
        invariant i == 0 ==> choice == None && maxNumSenses == -1
        invariant i > 0 ==> choice == Some(Canonical(objs[..i])) &&
                            maxNumSenses == |choice.value.senses|
      {
        assert objs[..i + 1][..i] == objs[..i];
        var numSenses := |objs[i].senses|;
        if numSenses > maxNumSenses {
          choice := Some(objs[i]);
          maxNumSenses := numSenses;
        }
        i := i + 1;
      }
      assert objs[..i] == objs;
      chosen := choice.value;
    }
  }

  // ---------------------------------------------------------------------------
  // The translation index
  // ---------------------------------------------------------------------------

  /** Grouping key of an entry: language, lemma, FrameNet part of speech. */
  type Key = (string, string, FnPos)

  /** Index key: language, lemma, part of speech, target language. */
  type IndexKey = (string, string, FnPos, string)

  /** Index value: a lemma and its part of speech. */
  type Pair = (string, FnPos)

  type Link = (IndexKey, Pair)

  function KeyOf(e: LemmaPos): Key {
    (e.lang, e.headword, e.fnPos)
  }

  /** The pair filed for a translation in the direction it was recorded. */
  function ForwardLink(e: LemmaPos, t: Translation): Link {
    ((e.lang, e.headword, e.fnPos, t.lang), (t.headword, t.fnPos))
  }

  /** The pair filed for a translation in the reverse direction. */
  function BackwardLink(e: LemmaPos, t: Translation): Link {
    ((t.lang, t.headword, t.fnPos, e.lang), (e.headword, e.fnPos))
  }

  /** The (key, pair) links of the translations `ts` of entry `e`, in both
      directions. */
  ghost function EntryLinks(e: LemmaPos, ts: seq<Translation>): set<Link> {
    (set t | t in ts :: ForwardLink(e, t)) + (set t | t in ts :: BackwardLink(e, t))
  }

  /** Every link that the translations of the entries under `keys` of
      `canonical` contribute. */
  ghost function LinksOver(canonical: map<Key, LemmaPos>, keys: set<Key>): set<Link> {
    set k, l | k in keys && k in canonical && l in EntryLinks(canonical[k], canonical[k].translations) :: l
  }

  /** The links of all canonical entries. */
  ghost function AllLinks(canonical: map<Key, LemmaPos>): set<Link> {
    LinksOver(canonical, canonical.Keys)
  }

  /** `index` is exactly the set-valued map of `links`: no empty bucket, every
      pair in a bucket is a link, every link is in its bucket. */
  ghost predicate IndexOf(index: map<IndexKey, set<Pair>>, links: set<Link>) {
    (forall ik :: ik in index ==> index[ik] != {}) &&
    (forall ik, v :: ik in index && v in index[ik] ==> (ik, v) in links) &&
    (forall ik, v :: (ik, v) in links ==> ik in index && v in index[ik])
  }

  /** Adding a pair to a bucket of a set-valued map, creating the bucket when
      it is missing. */
  function AddLink(index: map<IndexKey, set<Pair>>, ik: IndexKey, v: Pair)
    : map<IndexKey, set<Pair>>
  {
    index[ik := (if ik in index then index[ik] else {}) + {v}]
  }

  /** Adding a link to the index of some links gives the index of the links
      with that one. */
  lemma AddLinkKeepsIndex(index: map<IndexKey, set<Pair>>, links: set<Link>, ik: IndexKey, v: Pair)
    requires IndexOf(index, links)
    ensures IndexOf(AddLink(index, ik, v), links + {(ik, v)})
  {
  }

  /** A set of links has only one index: rebuilding from the same links gives
      the same map. */
  lemma IndexIsDetermined(links: set<Link>, i1: map<IndexKey, set<Pair>>, i2: map<IndexKey, set<Pair>>)
    requires IndexOf(i1, links) && IndexOf(i2, links)
    ensures i1 == i2
  {
    forall ik | ik in i1
      ensures ik in i2 && i1[ik] == i2[ik]
    {
      var v :| v in i1[ik];
      assert (ik, v) in links;
      forall w | w in i1[ik] ensures w in i2[ik] {
        assert (ik, w) in links;
      }
      forall w | w in i2[ik] ensures w in i1[ik] {
        assert (ik, w) in links;
      }
    }
    forall ik | ik in i2 ensures ik in i1 {
      var v :| v in i2[ik];
      assert (ik, v) in links;
    }
  }

  /** Both directions of every translation of every canonical entry are in the
      index. */
  lemma IndexHasBothDirections(canonical: map<Key, LemmaPos>, index: map<IndexKey, set<Pair>>,
                               k: Key, t: Translation)
    requires IndexOf(index, AllLinks(canonical))
    requires k in canonical && t in canonical[k].translations
    ensures var e := canonical[k];
            (e.lang, e.headword, e.fnPos, t.lang) in index &&
            (t.headword, t.fnPos) in index[(e.lang, e.headword, e.fnPos, t.lang)]
    ensures var e := canonical[k];
            (t.lang, t.headword, t.fnPos, e.lang) in index &&
            (e.headword, e.fnPos) in index[(t.lang, t.headword, t.fnPos, e.lang)]
  {
    var e := canonical[k];
    assert ForwardLink(e, t) in EntryLinks(e, e.translations);
    assert BackwardLink(e, t) in EntryLinks(e, e.translations);
  }

  /** Every pair in the index comes from a translation of a canonical entry, in
      one direction or the other. */
  lemma IndexComesFromTranslations(canonical: map<Key, LemmaPos>, index: map<IndexKey, set<Pair>>,
                                   ik: IndexKey, v: Pair)
    requires IndexOf(index, AllLinks(canonical))
    requires ik in index && v in index[ik]
    ensures exists k, t :: k in canonical && t in canonical[k].translations &&
                           ((ik, v) == ForwardLink(canonical[k], t) ||
                            (ik, v) == BackwardLink(canonical[k], t))
  {
    assert (ik, v) in AllLinks(canonical);
  }

  /** The index is symmetric: if b (of part of speech Q) translates a (of P) from
      language A into B, then a translates b from B into A. */
  lemma IndexIsSymmetric(canonical: map<Key, LemmaPos>, index: map<IndexKey, set<Pair>>,
                         ik: IndexKey, v: Pair)
    requires IndexOf(index, AllLinks(canonical))
    requires ik in index && v in index[ik]
    ensures (ik.3, v.0, v.1, ik.0) in index && (ik.1, ik.2) in index[(ik.3, v.0, v.1, ik.0)]
  {
    IndexComesFromTranslations(canonical, index, ik, v);
    var k, t :| k in canonical && t in canonical[k].translations &&
                ((ik, v) == ForwardLink(canonical[k], t) || (ik, v) == BackwardLink(canonical[k], t));
    IndexHasBothDirections(canonical, index, k, t);
  }

  // ---------------------------------------------------------------------------
  // The accumulator
  // ---------------------------------------------------------------------------

  /** No key has an empty candidate list. */
  predicate NoEmptyGroup(groups: map<Key, seq<LemmaPos>>) {
    forall k :: k in groups ==> |groups[k]| > 0
  }

  /** Candidate lists are never empty and hold entries filed under their own key. */
  ghost predicate GroupsValid(groups: map<Key, seq<LemmaPos>>) {
    NoEmptyGroup(groups) &&
    forall k :: k in groups ==>
      forall i :: 0 <= i < |groups[k]| ==> KeyOf(groups[k][i]) == k && WellFormed(groups[k][i])
  }

  /** The canonical entry of every key of `groups`. */
  ghost function CanonicalMap(groups: map<Key, seq<LemmaPos>>): map<Key, LemmaPos>
    requires NoEmptyGroup(groups)
  {
    map k | k in groups :: Canonical(groups[k])
  }

  /** The loop of `merge_lemma_objs`: for every key, in any order, stores the
      choice among its candidates into `canonical`. */
  method MergeGroups(groups: map<Key, seq<LemmaPos>>, canonical: map<Key, LemmaPos>)
    returns (merged: map<Key, LemmaPos>)
    requires NoEmptyGroup(groups)
    ensures merged == canonical + CanonicalMap(groups)
  {
    ghost var target := CanonicalMap(groups);
    merged := canonical;
    var todo := groups.Keys;
    ghost var done: set<Key> := {};
    while todo != {}
      invariant todo <= groups.Keys && done == groups.Keys - todo
      invariant merged.Keys == canonical.Keys + done
      invariant forall k :: k in done ==> merged[k] == target[k]
      invariant forall k :: k in merged && k !in done ==> merged[k] == canonical[k]
      decreases todo
    {
      var key :| key in todo;
      var chosen := ChooseLemmaObj(groups[key]);
      merged := merged[key := chosen];
      done := done + {key};
      todo := todo - {key};
    }
  }

  /** Every canonical entry is filed under its own key and well formed, as the
      candidate it was chosen from. */
  lemma CanonicalMapValid(groups: map<Key, seq<LemmaPos>>)
    requires GroupsValid(groups)
    ensures forall k :: k in CanonicalMap(groups) ==>
              KeyOf(CanonicalMap(groups)[k]) == k && WellFormed(CanonicalMap(groups)[k])
  {
    forall k | k in CanonicalMap(groups)
      ensures KeyOf(CanonicalMap(groups)[k]) == k && WellFormed(CanonicalMap(groups)[k])
    {
      var c := CanonicalMap(groups)[k];
      assert c in groups[k];
      var i :| 0 <= i < |groups[k]| && groups[k][i] == c;
    }
  }

  /** The loader's accumulator: the candidate entries of every key
      (`lang_lemma_pos2lemma_pos_objs`), the canonical entry of every key
      (`lang_lemma_pos2lemma_pos_obj`) and the translation index
      (`wikt_translations`). */
  class Wiktionary {
    var groups: map<Key, seq<LemmaPos>>
    var canonical: map<Key, LemmaPos>
    var wiktTranslations: map<IndexKey, set<Pair>>

    ghost predicate Valid()
      reads this
    {
      GroupsValid(groups) &&
      forall k :: k in canonical ==> KeyOf(canonical[k]) == k && WellFormed(canonical[k])
    }

    constructor ()
      ensures Valid()
      ensures groups == map[] && canonical == map[] && wiktTranslations == map[]
    {
      groups := map[];
      canonical := map[];
      wiktTranslations := map[];
    }

    /** `merge_lemma_objs`: writes the canonical entry of every grouping key. */
    method MergeLemmaObjs()
      requires Valid()
      modifies this
      ensures Valid()
      ensures groups == old(groups) && wiktTranslations == old(wiktTranslations)
      ensures canonical == old(canonical) + CanonicalMap(groups)
    {
      canonical := MergeGroups(groups, canonical);
      CanonicalMapValid(groups);
    }

    /** `create_translation_dict`: files both directions of every translation of
      every canonical entry, and replaces the index with the result. */
    method CreateTranslationDict()
      requires Valid()
      modifies this
      ensures Valid()
      ensures groups == old(groups) && canonical == old(canonical)
      ensures IndexOf(wiktTranslations, AllLinks(canonical))
    {
      wiktTranslations := BuildTranslationIndex(canonical);
    }
  }

  /** The loops of `create_translation_dict`: a set-valued map that receives,
      for every translation of every canonical entry, the pair of each direction. */
  method BuildTranslationIndex(canonical: map<Key, LemmaPos>)
    returns (index: map<IndexKey, set<Pair>>)
    ensures IndexOf(index, AllLinks(canonical))
  {
    index := map[];
    var todo := canonical.Keys;
    ghost var done: set<Key> := {};
    while todo != {}
      invariant todo <= canonical.Keys && done == canonical.Keys - todo
      invariant IndexOf(index, LinksOver(canonical, done))
      decreases todo
    {
      var key :| key in todo;
      var e := canonical[key];
      ghost var before := LinksOver(canonical, done);
      var i := 0;
      while i < |e.translations|
        invariant 0 <= i <= |e.translations|
        invariant IndexOf(index, before + EntryLinks(e, e.translations[..i]))
      {
        var t := e.translations[i];
        EntryLinksStep(e, e.translations, i);
        ghost var links := before + EntryLinks(e, e.translations[..i]);
        var fwd := ForwardLink(e, t);
        AddLinkKeepsIndex(index, links, fwd.0, fwd.1);
        index := AddLink(index, fwd.0, fwd.1);
        var bwd := BackwardLink(e, t);
        AddLinkKeepsIndex(index, links + {fwd}, bwd.0, bwd.1);
        index := AddLink(index, bwd.0, bwd.1);
        assert links + {fwd} + {bwd} == before + EntryLinks(e, e.translations[..i + 1]);
        i := i + 1;
      }
      assert e.translations[..i] == e.translations;
      LinksOverStep(canonical, done, key);
      done := done + {key};
      todo := todo - {key};
    }
    assert done == canonical.Keys;
  }

  /** Taking one more translation into account adds its two links. */
  lemma EntryLinksStep(e: LemmaPos, ts: seq<Translation>, i: nat)
    requires i < |ts|
    ensures EntryLinks(e, ts[..i + 1]) ==
            EntryLinks(e, ts[..i]) + {ForwardLink(e, ts[i]), BackwardLink(e, ts[i])}
  {
    assert forall u :: u in ts[..i + 1] <==> u in ts[..i] || u == ts[i];
  }

  /** Taking one more key into account adds that entry's links. */
  lemma LinksOverStep(canonical: map<Key, LemmaPos>, keys: set<Key>, key: Key)
    requires key in canonical
    ensures LinksOver(canonical, keys + {key}) ==
            LinksOver(canonical, keys) + EntryLinks(canonical[key], canonical[key].translations)
  {
  }

  // ---------------------------------------------------------------------------
  // A worked case
  // ---------------------------------------------------------------------------

  /** With a single key, the canonical map holds that key's choice only. */
  lemma CanonicalMapOfOneKey(key: Key, objs: seq<LemmaPos>)
    requires |objs| > 0
    ensures CanonicalMap(map[key := objs]) == map[key := Canonical(objs)]
  {
  }

  /** Two candidates under one key with one and three senses: in either order
      the three-sense one is kept. */
  lemma BankCandidatesMerge(e1: LemmaPos, e3: LemmaPos)
    requires KeyOf(e1) == KeyOf(e3) && |e1.senses| == 1 && |e3.senses| == 3
    ensures CanonicalMap(map[KeyOf(e3) := [e1, e3]]) == map[KeyOf(e3) := e3]
    ensures CanonicalMap(map[KeyOf(e3) := [e3, e1]]) == map[KeyOf(e3) := e3]
  {
    assert [e1, e3][..1] == [e1];
    assert [e3, e1][..1] == [e3];
    assert Canonical([e1, e3]) == e3 && Canonical([e3, e1]) == e3;
    CanonicalMapOfOneKey(KeyOf(e3), [e1, e3]);
    CanonicalMapOfOneKey(KeyOf(e3), [e3, e1]);
  }

  /** The index of a single English noun entry "bank" whose one translation is
      Dutch "bank" holds exactly the two directions of that translation. */
  lemma BankIndex(e3: LemmaPos, t: Translation, index: map<IndexKey, set<Pair>>)
    requires e3.lang == "English" && e3.headword == "bank" && e3.fnPos == N && e3.translations == [t]
    requires t.lang == "Dutch" && t.headword == "bank" && t.fnPos == N
    requires IndexOf(index, AllLinks(map[KeyOf(e3) := e3]))
    ensures index == map[("English", "bank", N, "Dutch") := {("bank", N)},
                         ("Dutch", "bank", N, "English") := {("bank", N)}]
  {
    var expected := map[("English", "bank", N, "Dutch") := {("bank", N)},
                        ("Dutch", "bank", N, "English") := {("bank", N)}];
    SingleEntryLinks(e3, t);
    assert IndexOf(expected, {ForwardLink(e3, t), BackwardLink(e3, t)});
    IndexIsDetermined({ForwardLink(e3, t), BackwardLink(e3, t)}, index, expected);
  }

  /** An entry alone, with a single translation, has just that translation's two links. */
  lemma SingleEntryLinks(e: LemmaPos, t: Translation)
    requires e.translations == [t]
    ensures AllLinks(map[KeyOf(e) := e]) == {ForwardLink(e, t), BackwardLink(e, t)}
  {
    var canonical := map[KeyOf(e) := e];
    assert canonical.Keys == {} + {KeyOf(e)};
    LinksOverStep(canonical, {}, KeyOf(e));
    assert LinksOver(canonical, {}) == {};
    assert forall u :: u in e.translations <==> u == t;
    assert EntryLinks(e, e.translations) == {ForwardLink(e, t), BackwardLink(e, t)};
  }

  /** Two English noun pages for "bank" under the same key, with one and three
      senses, the second translated into Dutch "bank": the index of what the
      merge keeps holds exactly the two directions of that translation. */
  lemma BankScenario(e1: LemmaPos, e3: LemmaPos, t: Translation, index: map<IndexKey, set<Pair>>)
    requires KeyOf(e1) == KeyOf(e3) && |e1.senses| == 1 && |e3.senses| == 3
    requires e3.lang == "English" && e3.headword == "bank" && e3.fnPos == N && e3.translations == [t]
    requires t.lang == "Dutch" && t.headword == "bank" && t.fnPos == N
    requires IndexOf(index, AllLinks(CanonicalMap(map[KeyOf(e3) := [e1, e3]])))
    ensures index == map[("English", "bank", N, "Dutch") := {("bank", N)},
                         ("Dutch", "bank", N, "English") := {("bank", N)}]
  {
    BankCandidatesMerge(e1, e3);
    BankIndex(e3, t, index);
  }
}
