/** The speech step of src/text_to_speech.py: every section dict of the
    translated outline gets one `<lang>_speech_file_id` entry per language
    whose text it holds, naming the uploaded audio file or recording the
    failure. Speech synthesis, the upload and the clock are parameters. */
module Speech {
  import opened Wrappers
  import opened Text
  import opened OrderedMap
  import opened JsonValue

  // ---------------------------------------------------------------------
  // clean_filename

  /** A character of the regular-expression class `\w`, on ASCII. */
  predicate IsWordChar(c: char)
  {
    'a' <= c <= 'z' || 'A' <= c <= 'Z' || '0' <= c <= '9' || c == '_'
  }

  /** A character of the class `[-\s]`. */
  predicate IsGap(c: char)
  {
    c == '-' || IsSpace(c)
  }

  predicate IsUnderscore(c: char)
  {
    c == '_'
  }

  /** `re.sub(r'[^\w\s-]', '_', s)`. */
  function Sanitize(s: string): (r: string)
    ensures |r| == |s|
    ensures forall i :: 0 <= i < |s| ==> r[i] == if IsWordChar(s[i]) || IsGap(s[i]) then s[i] else '_'
  {
    seq(|s|, i requires 0 <= i < |s| => if IsWordChar(s[i]) || IsGap(s[i]) then s[i] else '_')
  }

  /** `re.sub(r'[-\s]+', '_', s)`: every maximal run of gap characters
      becomes one underscore. */
  function CollapseGaps(s: string): string
    decreases |s|
  {
    if |s| == 0 then ""
    else if IsGap(s[0]) then
      TrimStartRemovesPrefix(s[1..], IsGap);
      "_" + CollapseGaps(TrimStart(s[1..], IsGap))
    else [s[0]] + CollapseGaps(s[1..])
  }

  /** The name `clean_filename` builds before its emptiness check. */
  function Cleaned(s: string): string
  {
    Trim(Lower(CollapseGaps(Sanitize(s))), IsUnderscore)
  }

  /** The names `clean_filename` returns: not empty, made of lower-case word
      characters, and neither starting nor ending with an underscore. */
  predicate IsCleanName(s: string)
  {
    |s| > 0 && IsTrimmed(s, IsUnderscore)
    && forall i :: 0 <= i < |s| ==> IsWordChar(s[i]) && !('A' <= s[i] <= 'Z')
  }

  /** `clean_filename`; `now` is the integer timestamp used when cleaning
      leaves nothing. */
  function CleanFilename(name: string, now: nat): (r: string)
    ensures IsCleanName(r)
    ensures name == "" ==> r == "unnamed"
    ensures name != "" && Cleaned(name) == "" ==> r == "unnamed_" + NatToString(now)
  {
    if name == "" then "unnamed"
    else
      var cleaned := Cleaned(name);
      if cleaned == "" then
        var r := "unnamed_" + NatToString(now);
        assert r[|r| - 1] == NatToString(now)[|NatToString(now)| - 1];
        r
      else
        CleanedIsClean(name);
        cleaned
  }

  /** Sanitizing leaves only word and gap characters. */
  lemma SanitizeChars(s: string)
    ensures forall i :: 0 <= i < |Sanitize(s)| ==> IsWordChar(Sanitize(s)[i]) || IsGap(Sanitize(s)[i])
  {
  }

  /** Collapsing turns word-or-gap text into word text. */
  lemma {:induction false} CollapseGapsChars(s: string)
    requires forall i :: 0 <= i < |s| ==> IsWordChar(s[i]) || IsGap(s[i])
    ensures forall i :: 0 <= i < |CollapseGaps(s)| ==> IsWordChar(CollapseGaps(s)[i])
    decreases |s|
  {
    if |s| > 0 {
      if IsGap(s[0]) {
        var t := TrimStart(s[1..], IsGap);
        TrimStartRemovesPrefix(s[1..], IsGap);
        assert forall i :: 0 <= i < |t| ==> t[i] == s[1..][|s[1..]| - |t| + i];
        CollapseGapsChars(t);
      } else {
        assert forall i :: 0 <= i < |s[1..]| ==> s[1..][i] == s[i + 1];
        CollapseGapsChars(s[1..]);
      }
    }
  }

  /** Trimming keeps the characters of a string, so every property they all
      have survives. */
  lemma TrimKeepsChars(s: string, drop: char -> bool, p: char -> bool)
    requires forall i :: 0 <= i < |s| ==> p(s[i])
    ensures forall i :: 0 <= i < |Trim(s, drop)| ==> p(Trim(s, drop)[i])
  {
    var t := TrimStart(s, drop);
    TrimStartRemovesPrefix(s, drop);
    TrimEndRemovesSuffix(t, drop);
    assert forall i :: 0 <= i < |t| ==> t[i] == s[|s| - |t| + i];
  }

  lemma CleanedIsClean(name: string)
    requires Cleaned(name) != ""
    ensures IsCleanName(Cleaned(name))
  {
    var c := CollapseGaps(Sanitize(name));
    SanitizeChars(name);
    CollapseGapsChars(Sanitize(name));
    TrimKeepsChars(Lower(c), IsUnderscore, (ch: char) => IsWordChar(ch) && !('A' <= ch <= 'Z'));
  }

  /** A clean name is left as it is. */
  lemma CleanNameKept(s: string, now: nat)
    requires IsCleanName(s)
    ensures CleanFilename(s, now) == s
  {
    assert Sanitize(s) == s;
    NoGapsKept(s);
    assert Lower(s) == s;
    TrimOfTrimmed(s, IsUnderscore);
  }

  lemma {:induction false} NoGapsKept(s: string)
    requires forall i :: 0 <= i < |s| ==> IsWordChar(s[i])
    ensures CollapseGaps(s) == s
  {
    if |s| > 0 {
      NoGapsKept(s[1..]);
      assert s == [s[0]] + s[1..];
    }
  }

  /** Cleaning a cleaned name changes nothing, whatever the clock says. */
  lemma CleanFilenameIdempotent(name: string, now: nat, later: nat)
    ensures CleanFilename(CleanFilename(name, now), later) == CleanFilename(name, now)
  {
    CleanNameKept(CleanFilename(name, now), later);
  }

  // ---------------------------------------------------------------------
  // create_tts_file and create_and_upload_tts_file

  /** `VOICE_MAPPING`: the voice for each supported language. */
  const VoiceMapping: seq<Entry<string>> :=
    [Entry("en", "en-IN-PrabhatNeural"), Entry("hi", "hi-IN-MadhurNeural"), Entry("gu", "gu-IN-NiranjanNeural")]

  /** The languages with a voice are exactly English, Hindi and Gujarati. */
  lemma SupportedLanguages(lang: string)
    ensures Get(VoiceMapping, lang).Some? <==> lang in ["en", "hi", "gu"]
  {
    var m := VoiceMapping;
    assert m[1..][1..][1..] == [];
    assert Get(m, lang) == if lang == "en" then Some(m[0].value) else Get(m[1..], lang);
    assert Get(m[1..], lang) == if lang == "hi" then Some(m[1].value) else Get(m[1..][1..], lang);
    assert Get(m[1..][1..], lang) == if lang == "gu" then Some(m[2].value) else None;
  }

  /** The outside world: whether synthesis of a text with a voice into the
      temporary file succeeds, the name of that file, and the upload, which
      receives the metadata and returns the id of the stored file or
      nothing. */
  datatype Services = Services(synthesize: (string, string) -> bool, tempPath: string, upload: Json -> Option<string>)

  /** The ways `create_tts_file` ends: the path of the file written, `None`
      for a blank text, the `ValueError` for an unsupported language, or the
      synthesis error it re-raises. */
  datatype TtsOutcome = Created(path: string) | Skipped | Unsupported | SynthesisFailed

  /** `create_tts_file`. */
  function CreateTtsFile(text: string, lang: string, path: string, synthesize: (string, string) -> bool): (r: TtsOutcome)
    ensures Strip(text) == "" <==> r == Skipped
    ensures r == Unsupported <==> Strip(text) != "" && Get(VoiceMapping, lang).None?
    ensures r.Created? <==> Strip(text) != "" && Get(VoiceMapping, lang).Some? && synthesize(text, Get(VoiceMapping, lang).value)
    ensures r.Created? ==> r.path == path
  {
    if Strip(text) == "" then Skipped
    else match Get(VoiceMapping, lang)
      case None => Unsupported
      case Some(voice) => if synthesize(text, voice) then Created(path) else SynthesisFailed
  }

  /** The ways `create_and_upload_tts_file` ends: the id of the uploaded
      file, `None`, or the exception raised when the text is not a string. */
  datatype UploadOutcome = Uploaded(id: string) | NotUploaded | Raised

  /** The `upload_metadata` sent with the audio file; the `generated_at`
      timestamp is left out. */
  function UploadMetadata(filename: string, lang: string, text: string, content: Json): Json
  {
    JObj([Entry("filename", JStr(filename)), Entry("language", JStr(lang)),
          Entry("text_length", JNum(|text|)), Entry("content_metadata", content)])
  }

  /** `create_and_upload_tts_file`. A blank text is not uploaded; a text that
      is not a string makes the `strip()` of the guard raise; an empty path
      from synthesis and every other failure after the guard end in `None`. */
  function CreateAndUpload(text: Json, lang: string, filename: string, metadata: Json, svc: Services): (r: UploadOutcome)
    ensures r.Raised? <==> Truthy(text) && !text.JStr?
    ensures text.JStr? && Strip(text.s) == "" ==> r == NotUploaded
    ensures r.Uploaded? ==> r.id != "" && text.JStr? && Strip(text.s) != ""
  {
    if !Truthy(text) then NotUploaded
    else if !text.JStr? then Raised
    else if Strip(text.s) == "" then NotUploaded
    else match CreateTtsFile(text.s, lang, svc.tempPath, svc.synthesize)
      case Created(path) =>
        if path == "" then NotUploaded
        else (match svc.upload(UploadMetadata(filename, lang, text.s, metadata))
         case Some(id) => if id != "" then Uploaded(id) else NotUploaded
         case None => NotUploaded)
      case _ => NotUploaded
  }

  /** An upload happens exactly when the text is a non-blank string, the
      language has a voice, synthesis into a named temporary file succeeds
      and the upload returns a non-empty id; the id stored is the one
      returned. */
  lemma UploadedExactly(text: Json, lang: string, filename: string, metadata: Json, svc: Services)
    ensures CreateAndUpload(text, lang, filename, metadata, svc).Uploaded? <==>
      text.JStr? && Strip(text.s) != "" && Get(VoiceMapping, lang).Some?
      && svc.synthesize(text.s, Get(VoiceMapping, lang).value) && svc.tempPath != ""
      && svc.upload(UploadMetadata(filename, lang, text.s, metadata)).Some?
      && svc.upload(UploadMetadata(filename, lang, text.s, metadata)).value != ""
    ensures CreateAndUpload(text, lang, filename, metadata, svc).Uploaded? ==>
      Some(CreateAndUpload(text, lang, filename, metadata, svc).id) == svc.upload(UploadMetadata(filename, lang, text.s, metadata))
  {
    if text.JStr? && Strip(text.s) != "" {
      assert Truthy(text);
    }
  }

  // ---------------------------------------------------------------------
  // process_section

  /** A language of the speech step: its code and the key of its text. */
  datatype Language = Language(code: string, field: string)

  const Languages: seq<Language> := [Language("en", "text"), Language("hi", "hindi_text"), Language("gu", "guj_text")]

  const Sentinel: string := "Failed to generate"

  /** The key under which a language's file id is stored. */
  function FileKey(code: string): string
  {
    code + "_speech_file_id"
  }

  /** The keys the speech step writes: the ones with the suffix the URL step
      looks for. */
  predicate IsSpeechKey(k: string)
  {
    EndsWith(k, "_speech_file_id")
  }

  /** The stem of a section's audio file names: the cleaned key, preceded by
      the cleaned key of the parent section when there is one. */
  function FileStem(key: string, parent: string, now: nat): string
  {
    if parent != "" then CleanFilename(parent, now) + "_" + CleanFilename(key, now)
    else CleanFilename(key, now)
  }

  /** The name of a section's audio file in one language. */
  function ArtifactName(key: string, parent: string, code: string, now: nat): string
  {
    FileStem(key, parent, now) + FileSuffix(code)
  }

  /** `_<lang>.mp3`. */
  function FileSuffix(code: string): string
  {
    "_" + code + ".mp3"
  }

  /** The metadata of one section and language. */
  function SectionMetadata(key: string, parent: string, code: string): Json
  {
    JObj([Entry("section", JStr(key)), Entry("parent_section", JStr(parent)),
          Entry("type", JStr("audio")), Entry("source", JStr("document_processing")),
          Entry("language", JStr(code)),
          Entry("text_type", JStr(if code == "en" then "original" else "translation"))])
  }

  /** What is stored for an attempt: the id, or the sentinel when there is
      none or the attempt raised. */
  function Stored(o: UploadOutcome): string
  {
    if o.Uploaded? then o.id else Sentinel
  }

  /** The file id entry a section gets for a language: present exactly when
      the language's text is present and truthy. */
  function SpeechEntry(fs: Fields, lang: Language, key: string, parent: string, svc: Services, now: nat): Option<Json>
  {
    var text := Get(fs, lang.field);
    if text.Some? && Truthy(text.value) then
      Some(JStr(Stored(CreateAndUpload(text.value, lang.code, ArtifactName(key, parent, lang.code, now),
                                       SectionMetadata(key, parent, lang.code), svc))))
    else None
  }

  /** One iteration of the loop over the languages. */
  function Speak(fs: Fields, lang: Language, key: string, parent: string, svc: Services, now: nat): Fields
  {
    var entry := SpeechEntry(fs, lang, key, parent, svc, now);
    if entry.Some? then Put(fs, FileKey(lang.code), entry.value) else fs
  }

  /** The loop over the three languages. */
  function SpeakAll(fs: Fields, key: string, parent: string, svc: Services, now: nat): Fields
  {
    var en := Speak(fs, Languages[0], key, parent, svc, now);
    var hi := Speak(en, Languages[1], key, parent, svc, now);
    Speak(hi, Languages[2], key, parent, svc, now)
  }

  /** `process_section` on the section `section` stored under `key`, whose
      parent section's key is `parent` (empty at the top level). The section
      dict is updated in place; the value returned is the section after the
      call. A falsy value or one that is not a dict is left alone. When
      `subtopics` is truthy but not a dict, its `items()` raises after the
      language entries are written, and the handler keeps them. */
  function SynthSection(key: string, section: Json, parent: string, svc: Services, now: nat): Json
    decreases section
  {
    if !Truthy(section) || !section.JObj? then section
    else
      var fs := section.fields;
      var spoken := SpeakAll(fs, key, parent, svc, now);
      match Find(fs, "subtopics")
      case Some(s) =>
        var sub := fs[s].value;
        if Truthy(sub) && sub.JObj? then
          JObj(Put(spoken, "subtopics", JObj(SynthChildren(sub.fields, key, svc, now))))
        else JObj(spoken)
      case None => JObj(spoken)
  }

  /** The loop over the subtopics of the section `parent`. */
  function SynthChildren(cs: Fields, parent: string, svc: Services, now: nat): (r: Fields)
    ensures Keys(r) == Keys(cs)
    decreases cs
  {
    if |cs| == 0 then []
    else [Entry(cs[0].key, SynthSection(cs[0].key, cs[0].value, parent, svc, now))] + SynthChildren(cs[1..], parent, svc, now)
  }

  /** `process_brick_masonry_data_async` once awaited: `{}` for a falsy input,
      the input itself when it is not a dict (its `items()` raises and the
      handler returns the original), and otherwise the copy with every
      top-level section processed. */
  function SynthesizeTree(data: Json, svc: Services, now: nat): (r: Json)
    ensures !Truthy(data) ==> r == EmptyObject
    ensures Truthy(data) && !data.JObj? ==> r == data
    ensures data.JObj? && Truthy(data) ==> r.JObj? && Keys(r.fields) == Keys(data.fields)
  {
    if !Truthy(data) then EmptyObject
    else if !data.JObj? then data
    else JObj(SynthChildren(data.fields, "", svc, now))
  }

  // ---------------------------------------------------------------------
  // Properties of the speech step

  /** Every character of an audio file name is a word character or the dot
      of the extension, so the name holds no space and no path separator. */
  lemma ArtifactNameSafe(key: string, parent: string, lang: Language, now: nat)
    requires lang in Languages
    ensures var n := ArtifactName(key, parent, lang.code, now);
      EndsWith(n, FileSuffix(lang.code))
      && forall i :: 0 <= i < |n| ==> IsWordChar(n[i]) || n[i] == '.'
  {
    FileStemChars(key, parent, now);
    SuffixChars(lang.code);
    ConcatChars(FileStem(key, parent, now), FileSuffix(lang.code));
  }

  lemma SuffixChars(code: string)
    requires code in ["en", "hi", "gu"]
    ensures forall i :: 0 <= i < |FileSuffix(code)| ==> IsWordChar(FileSuffix(code)[i]) || FileSuffix(code)[i] == '.'
  {
  }

  lemma ConcatChars(stem: string, suffix: string)
    requires forall i :: 0 <= i < |stem| ==> IsWordChar(stem[i])
    requires forall i :: 0 <= i < |suffix| ==> IsWordChar(suffix[i]) || suffix[i] == '.'
    ensures EndsWith(stem + suffix, suffix)
    ensures forall i :: 0 <= i < |stem + suffix| ==> IsWordChar((stem + suffix)[i]) || (stem + suffix)[i] == '.'
  {
    var n := stem + suffix;
    assert n[|n| - |suffix|..] == suffix;
  }

  lemma FileStemChars(key: string, parent: string, now: nat)
    ensures forall i :: 0 <= i < |FileStem(key, parent, now)| ==> IsWordChar(FileStem(key, parent, now)[i])
  {
    if parent != "" {
      var a := CleanFilename(parent, now);
      WordConcat(a, "_");
      WordConcat(a + "_", CleanFilename(key, now));
    }
  }

  lemma WordConcat(a: string, b: string)
    requires forall i :: 0 <= i < |a| ==> IsWordChar(a[i])
    requires forall i :: 0 <= i < |b| ==> IsWordChar(b[i])
    ensures forall i :: 0 <= i < |a + b| ==> IsWordChar((a + b)[i])
  {
  }

  predicate NoSpeechKeys(fs: Fields)
  {
    forall i :: 0 <= i < |fs| ==> !IsSpeechKey(fs[i].key)
  }

  lemma FileKeysAreSpeechKeys(code: string)
    ensures IsSpeechKey(FileKey(code)) && FileKey(code) != "subtopics"
  {
    var k := FileKey(code);
    assert k[|k| - |"_speech_file_id"|..] == "_speech_file_id";
  }

  lemma SpeechKeyAbsent(fs: Fields, k: string)
    requires NoSpeechKeys(fs) && IsSpeechKey(k)
    ensures Get(fs, k) == None
  {
    GetFindsKeys(fs, k);
  }

  /** The three file keys, and the keys of the three texts. */
  lemma LanguageKeys()
    ensures FileKey(Languages[0].code) == "en_speech_file_id" && Languages[0].field == "text"
    ensures FileKey(Languages[1].code) == "hi_speech_file_id" && Languages[1].field == "hindi_text"
    ensures FileKey(Languages[2].code) == "gu_speech_file_id" && Languages[2].field == "guj_text"
  {
  }

  /** One step of the language loop assigns its file key and nothing else. */
  lemma SpeakGet(fs: Fields, lang: Language, key: string, parent: string, svc: Services, now: nat, k: string)
    ensures Get(Speak(fs, lang, key, parent, svc, now), k)
         == if k == FileKey(lang.code) && SpeechEntry(fs, lang, key, parent, svc, now).Some?
            then SpeechEntry(fs, lang, key, parent, svc, now) else Get(fs, k)
  {
  }

  /** The entry of a language only depends on that language's text. */
  lemma SpeechEntrySameText(fs: Fields, gs: Fields, lang: Language, key: string, parent: string, svc: Services, now: nat)
    requires Get(fs, lang.field) == Get(gs, lang.field)
    ensures SpeechEntry(fs, lang, key, parent, svc, now) == SpeechEntry(gs, lang, key, parent, svc, now)
  {
  }

  /** The language loop stores, under each file key, the entry for that
      language and nothing when the language's text is missing or falsy. */
  lemma SpeakAllEntries(fs: Fields, key: string, parent: string, svc: Services, now: nat, l: nat)
    requires NoSpeechKeys(fs) && l < |Languages|
    ensures Get(SpeakAll(fs, key, parent, svc, now), FileKey(Languages[l].code))
         == SpeechEntry(fs, Languages[l], key, parent, svc, now)
  {
    var L := Languages;
    LanguageKeys();
    var en := Speak(fs, L[0], key, parent, svc, now);
    var hi := Speak(en, L[1], key, parent, svc, now);
    SpeakGet(fs, L[0], key, parent, svc, now, "hindi_text");
    SpeakGet(fs, L[0], key, parent, svc, now, "guj_text");
    SpeakGet(en, L[1], key, parent, svc, now, "guj_text");
    SpeechEntrySameText(en, fs, L[1], key, parent, svc, now);
    SpeechEntrySameText(hi, fs, L[2], key, parent, svc, now);
    var k := FileKey(L[l].code);
    FileKeysAreSpeechKeys(L[l].code);
    SpeechKeyAbsent(fs, k);
    SpeakGet(fs, L[0], key, parent, svc, now, k);
    SpeakGet(en, L[1], key, parent, svc, now, k);
    SpeakGet(hi, L[2], key, parent, svc, now, k);
  }

  /** A section dict gets the file key of a language exactly when it holds a
      truthy text for it, and the value is the uploaded id or the sentinel. */
  lemma SectionFileIds(key: string, fs: Fields, parent: string, svc: Services, now: nat, l: nat)
    requires |fs| > 0 && NoSpeechKeys(fs) && l < |Languages|
    ensures var out := SynthSection(key, JObj(fs), parent, svc, now);
      var lang := Languages[l];
      var text := Get(fs, lang.field);
      out.JObj?
      && (Get(out.fields, FileKey(lang.code)).Some? <==> text.Some? && Truthy(text.value))
      && (text.Some? && Truthy(text.value) ==>
            Get(out.fields, FileKey(lang.code))
            == Some(JStr(Stored(CreateAndUpload(text.value, lang.code, ArtifactName(key, parent, lang.code, now),
                                                SectionMetadata(key, parent, lang.code), svc)))))
  {
    var k := FileKey(Languages[l].code);
    FileKeysAreSpeechKeys(Languages[l].code);
    SectionKeepsSpoken(key, fs, parent, svc, now, k);
    SpeakAllEntries(fs, key, parent, svc, now, l);
  }

  /** Apart from `subtopics`, a section dict ends as the language loop left
      it. */
  lemma SectionKeepsSpoken(key: string, fs: Fields, parent: string, svc: Services, now: nat, k: string)
    requires |fs| > 0 && k != "subtopics"
    ensures SynthSection(key, JObj(fs), parent, svc, now).JObj?
    ensures Get(SynthSection(key, JObj(fs), parent, svc, now).fields, k) == Get(SpeakAll(fs, key, parent, svc, now), k)
  {
    var spoken := SpeakAll(fs, key, parent, svc, now);
    var out := SynthSection(key, JObj(fs), parent, svc, now);
    assert Truthy(JObj(fs));
    var s := Find(fs, "subtopics");
    if s.Some? && Truthy(fs[s.value].value) && fs[s.value].value.JObj? {
      var children := JObj(SynthChildren(fs[s.value].value.fields, key, svc, now));
      assert out == JObj(Put(spoken, "subtopics", children));
    } else {
      assert out == JObj(spoken);
    }
  }

  /** A non-empty `subtopics` dict is processed child by child, each child
      with the section's own key as its parent. */
  lemma SectionSubtopics(key: string, fs: Fields, parent: string, svc: Services, now: nat)
    requires |fs| > 0
    requires Get(fs, "subtopics").Some? && Get(fs, "subtopics").value.JObj? && Truthy(Get(fs, "subtopics").value)
    ensures var out := SynthSection(key, JObj(fs), parent, svc, now);
      out.JObj?
      && Get(out.fields, "subtopics") == Some(JObj(SynthChildren(Get(fs, "subtopics").value.fields, key, svc, now)))
  {
    FindGet(fs, "subtopics");
  }

  // ---------------------------------------------------------------------
  // Removing the file ids gives the input back

  lemma {:induction false} SpeakAllPruned(fs: Fields, key: string, parent: string, svc: Services, now: nat)
    ensures PruneFields(SpeakAll(fs, key, parent, svc, now), IsSpeechKey) == PruneFields(fs, IsSpeechKey)
  {
    var en := Speak(fs, Languages[0], key, parent, svc, now);
    var hi := Speak(en, Languages[1], key, parent, svc, now);
    SpeakPruned(fs, Languages[0], key, parent, svc, now);
    SpeakPruned(en, Languages[1], key, parent, svc, now);
    SpeakPruned(hi, Languages[2], key, parent, svc, now);
  }

  lemma SpeakPruned(fs: Fields, lang: Language, key: string, parent: string, svc: Services, now: nat)
    ensures PruneFields(Speak(fs, lang, key, parent, svc, now), IsSpeechKey) == PruneFields(fs, IsSpeechKey)
  {
    var entry := SpeechEntry(fs, lang, key, parent, svc, now);
    if entry.Some? {
      FileKeysAreSpeechKeys(lang.code);
      PrunePutDropped(fs, FileKey(lang.code), entry.value, IsSpeechKey);
    }
  }

  /** Processing a section and then removing every file id entry gives the
      section back, when it had none to begin with. */
  lemma {:induction false} SynthSectionErased(key: string, section: Json, parent: string, svc: Services, now: nat)
    requires WellFormed(section) && NoKeyDeep(section, IsSpeechKey)
    ensures Prune(SynthSection(key, section, parent, svc, now), IsSpeechKey) == section
    decreases section
  {
    if !Truthy(section) || !section.JObj? {
      PruneUnchanged(section, IsSpeechKey);
    } else {
      var fs := section.fields;
      var spoken := SpeakAll(fs, key, parent, svc, now);
      var out := SynthSection(key, section, parent, svc, now);
      PruneFieldsUnchanged(fs, IsSpeechKey);
      SpeakAllPruned(fs, key, parent, svc, now);
      var s := Find(fs, "subtopics");
      if s.Some? && Truthy(fs[s.value].value) && fs[s.value].value.JObj? {
        var sub := fs[s.value].value;
        var children := SynthChildren(sub.fields, key, svc, now);
        assert out == JObj(Put(spoken, "subtopics", JObj(children)));
        ChildrenWithoutSpeechKeys(fs, s.value);
        SynthChildrenErased(sub.fields, key, svc, now);
        SubtopicsErased(fs, spoken, s.value, children);
      } else {
        assert out == JObj(spoken);
      }
    }
  }

  lemma ChildrenWithoutSpeechKeys(fs: Fields, s: nat)
    requires WellFormed(JObj(fs)) && NoKeyDeep(JObj(fs), IsSpeechKey) && s < |fs| && fs[s].value.JObj?
    ensures var cs := fs[s].value.fields;
      forall i :: 0 <= i < |cs| ==> !IsSpeechKey(cs[i].key) && WellFormed(cs[i].value) && NoKeyDeep(cs[i].value, IsSpeechKey)
  {
    assert WellFormed(fs[s].value) && NoKeyDeep(fs[s].value, IsSpeechKey);
  }

  /** Putting back a `subtopics` value that prunes to the original one. */
  lemma SubtopicsErased(fs: Fields, spoken: Fields, s: nat, children: Fields)
    requires s < |fs| && Find(fs, "subtopics") == Some(s) && fs[s].value.JObj?
    requires PruneFields(spoken, IsSpeechKey) == fs
    requires PruneFields(children, IsSpeechKey) == fs[s].value.fields
    ensures PruneFields(Put(spoken, "subtopics", JObj(children)), IsSpeechKey) == fs
  {
    FindGet(fs, "subtopics");
    calc {
      PruneFields(Put(spoken, "subtopics", JObj(children)), IsSpeechKey);
      { PrunePutKept(spoken, "subtopics", JObj(children), IsSpeechKey); }
      Put(fs, "subtopics", JObj(PruneFields(children, IsSpeechKey)));
      Put(fs, "subtopics", fs[s].value);
      { PutSameValue(fs, "subtopics", fs[s].value); }
      fs;
    }
  }

  lemma {:induction false} SynthChildrenErased(cs: Fields, parent: string, svc: Services, now: nat)
    requires forall i :: 0 <= i < |cs| ==> !IsSpeechKey(cs[i].key) && WellFormed(cs[i].value) && NoKeyDeep(cs[i].value, IsSpeechKey)
    ensures PruneFields(SynthChildren(cs, parent, svc, now), IsSpeechKey) == cs
    decreases cs
  {
    if |cs| > 0 {
      var head := Entry(cs[0].key, SynthSection(cs[0].key, cs[0].value, parent, svc, now));
      var rest := SynthChildren(cs[1..], parent, svc, now);
      SynthSectionErased(cs[0].key, cs[0].value, parent, svc, now);
      SynthChildrenErased(cs[1..], parent, svc, now);
      calc {
        PruneFields(SynthChildren(cs, parent, svc, now), IsSpeechKey);
        PruneFields([head] + rest, IsSpeechKey);
        { assert ([head] + rest)[1..] == rest; }
        [Entry(cs[0].key, Prune(head.value, IsSpeechKey))] + PruneFields(rest, IsSpeechKey);
        [cs[0]] + cs[1..];
        cs;
      }
    }
  }

  /** The whole speech step only adds file id entries to an input without
      any. */
  lemma SynthesizeTreeErased(data: Json, svc: Services, now: nat)
    requires Truthy(data) && WellFormed(data) && NoKeyDeep(data, IsSpeechKey)
    ensures Prune(SynthesizeTree(data, svc, now), IsSpeechKey) == data
  {
    if data.JObj? {
      SynthChildrenErased(data.fields, "", svc, now);
    } else {
      PruneUnchanged(data, IsSpeechKey);
    }
  }
}
