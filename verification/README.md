# Document → translation → speech pipeline, modelled in Dafny

This project models the tree-building and tree-rewriting core of a service that turns a
Word document into a multilingual audio course:

1. **Extraction** (`DocxTopicExtractor`): a scan over the document's paragraphs. Heading 2
   paragraphs open topics and Heading 3 paragraphs open subtopics. Body paragraphs are buffered
   and flushed into `{'text': ..., 'subtopics': {...}}` nodes. An optional case-insensitive
   allow-list selects the topics. `analyze_document_structure` is a second, counting scan over the
   same paragraphs.
2. **Translation**: a walk over the JSON value that gives every non-blank string under a `text`
   key `hindi_text` and `guj_text` siblings. The older variant of that walk rebuilds every node
   carrying `text` into exactly `{text, hindi_text, guj_text, subtopics}`.
3. **Speech**: a walk that sanitises section names into file names. For each of the three
   languages whose text is present and truthy, it stores the storage id of the uploaded audio
   under `<lang>_speech_file_id`, or the sentinel `"Failed to generate"`.
4. **The upload route**: it checks the `.docx` extension, runs the three steps, and collects every
   truthy value under a key ending in `_speech_file_id`. It then places a `_speech_url` entry next
   to every id the storage service knows.

JSON values are an immutable datatype (`JsonValue.Json`). Objects are association lists that
behave like Python dicts (`OrderedMap`):
- assigning to a present key replaces its value in place;
- assigning to a new key appends it;
- every dict built by a loop of assignments is `FromEntries` of the assignment sequence.

External services are function parameters:
- the language model is `Translation.Agent`;
- speech synthesis and upload are `Speech.Services`;
- the clock is the number `now`;
- the storage service's id-to-URL query is `lookup`;
- the document is its sequence of `(text, style)` paragraphs.

Every walk has a partner in the proofs:
- the extractor has a declarative reference description (`DocOutline.Reference`);
- each annotating walk is undone by removing the keys it adds (`Prune`);
- id collection has a declarative membership predicate (`App.IdIn`).

Modules:
- `Wrappers`, `Text`, `OrderedMap` and `JsonValue` hold the shared definitions.
- `DocExtractor` (src/doc_extractor.py) has its proofs in `DocOutline` and `DocProperties`.
- `Translation` models src/llm_parsing.py.
- `LegacyTranslation` models src/llm_parcing.py.
- `Speech` models src/text_to_speech.py.
- `App` models app.py.

## Model

| member | source | states |
|---|---|---|
| DocOutline.ExtractIsReference | src/doc_extractor.py:47-106 | The scan's structure equals the declarative outline. The non-blank paragraphs are cut at Heading 2. Each admitted section becomes a topic, re-assigned when its name repeats (last wins, first place kept). A topic keeps its own body text only when it has no Heading 3. Each subtopic gets the stripped texts of its body paragraphs (those of a style other than the headings and the skipped ones), joined by newlines and stripped. |
| DocOutline.RunIsState | src/doc_extractor.py:55-102 | After any prefix of the paragraphs, the loop's structure, `current_topic`, `current_subtopic` and line buffer are the ones determined by the topic sections read so far. |
| DocOutline.StepState | src/doc_extractor.py:57-97 | One non-blank paragraph moves the loop state exactly as adding the paragraph to the section description does. |
| DocOutline.CutAtFlatten | src/doc_extractor.py:64-97 | Cutting the paragraphs at headings neither loses nor reorders a paragraph. |
| DocOutline.CutAtHeadings | src/doc_extractor.py:64-92 | Every section starts with a heading of the cut level. Neither the paragraphs before the first heading nor any section body holds a heading of that level. |
| DocProperties.ExtractKeys | src/doc_extractor.py:64-81 | The result's keys are the stripped texts of the admitted Heading 2 paragraphs, in order of first appearance, without repetition. |
| DocProperties.ExtractHasTopic | src/doc_extractor.py:64-81 | A topic key is present exactly when some non-blank Heading 2 paragraph strips to it and the name passes the allow-list. A filtered-out heading creates no key. |
| DocProperties.AdmitsIgnoresCase | src/doc_extractor.py:53-75 | Two names that lower-case alike are both admitted or both rejected by the allow-list. |
| DocProperties.NoFilterAdmitsAll | src/doc_extractor.py:53 | With no filter, or an empty one, every topic name is admitted. |
| DocProperties.ExtractTidy | src/doc_extractor.py:78-140 | The result has no repeated key, and every topic name passes the allow-list. Every topic name, topic text, subtopic name and subtopic text is stripped. A topic with subtopics has empty text, and its subtopic names are distinct. |
| DocProperties.ExtractIgnoresBlank | src/doc_extractor.py:57-61 | Removing all blank paragraphs from the document leaves the result unchanged. |
| DocProperties.ExtractJson | src/doc_extractor.py:78-81 | The JSON form of the result has the same topic keys and no repeated key at any depth. |
| DocProperties.AnalyzeTopics | src/doc_extractor.py:176-189 | The analysis lists the stripped text of every non-blank Heading 2 paragraph, in document order, without de-duplication. |
| DocProperties.AnalyzeCount | src/doc_extractor.py:176-183 | The count stored for a style is the number of non-blank paragraphs of that style whose name starts with `Heading`. The style is absent when that number is zero. |
| DocProperties.ExtractMatchesAnalysis | src/doc_extractor.py:176-189 | Without a filter, the extracted topic keys are the analysis' topic list with repetitions removed. |
| Translation.TranslateText | src/llm_parsing.py:55-85 | A blank text gives `("", "")`. A reply gives `(hindi, gujarati)` in that order. A missing reply or an exception gives `("", "")`. |
| Translation.BlankNotSent | src/llm_parsing.py:67-69 | A blank text is never sent to the agent: every agent gives the same `("", "")` for it. |
| Translation.AddTranslations | src/llm_parsing.py:97-103 | A falsy input gives `{}`. Otherwise the walk's result is a dict, a list, or the input itself. |
| Translation.AnnotateWellFormed | src/llm_parsing.py:120-143 | The walk's output has no repeated key in any dict at any depth. |
| Translation.AnnotateItems | src/llm_parsing.py:140-141 | A processed list has the length of the input list. |
| Translation.AnnotateKeepsEntries | src/llm_parsing.py:135-139 | In a processed dict, a key other than `hindi_text`/`guj_text` is present exactly when the input has it. Its value is processed when it is a container and copied otherwise. The lemma states values, not positions. |
| Translation.AnnotateTranslates | src/llm_parsing.py:127-134 | For a non-empty dict with no repeated key and no `hindi_text`/`guj_text` key of its own, the processed dict holds `hindi_text` and `guj_text` exactly when its `text` is a non-blank string. They hold the first and second parts of that text's translation. |
| Translation.AnnotateRoundTrip | src/llm_parsing.py:120-143 | Removing `hindi_text`/`guj_text` everywhere from the output gives the input back, for any input with no repeated key in any dict, whose containers and list items are truthy, and that holds no such key. |
| Translation.QueriesNotBlank | src/llm_parsing.py:127-129 | Every text the walk sends to the agent is non-blank. |
| Translation.AnnotateUsesQueries | src/llm_parsing.py:127-137 | Two agents that agree on the texts the walk sends give the same output. |
| LegacyTranslation.LegacyTranslate | src/llm_parcing.py:25-45 | A falsy text gives `("", "")`. A blank string also gives `("", "")`. An exception (a non-string text, or no reply) gives `(" ", " ")`. |
| LegacyTranslation.LegacyTranslateReversed | src/llm_parcing.py:41 | Where both functions answer from the same reply, the older function returns the newer one's pair reversed: `(gujarati, hindi)`. |
| LegacyTranslation.LegacyProcessSucceeds | src/llm_parcing.py:47-83 | The older walk completes exactly when the input is a dict and every nested `subtopics` value, and every dict without `text`, is again such a dict. Otherwise `.items()` raises. |
| LegacyTranslation.LegacyProcessKeys | src/llm_parcing.py:51-83 | The output dict has the input's keys in the same order. |
| LegacyTranslation.LegacyProcessShaped | src/llm_parcing.py:58-73 | Every dict that held `text` becomes exactly `{text, hindi_text, guj_text, subtopics}`, with string translations and a `subtopics` dict that has this shape in turn. Every other dict has this shape in turn. This lemma states the shape at every depth; `LegacyTranslation.LegacyProcessNode` states the values. |
| LegacyTranslation.LegacyProcessNode | src/llm_parcing.py:53-81 | In a dict without repeated keys, the output entry in each place comes from the input entry in the same place, under the same key. A dict holding `text` `t` becomes exactly `{text: t, hindi_text: LegacyTranslate(t).0, guj_text: LegacyTranslate(t).1, subtopics: s}`, so a blank text gives two empty strings. Here `s` is the walked input `subtopics`, or `{}` when the input has none. A dict without `text` becomes that dict walked in turn. |
| LegacyTranslation.LegacyProcessKeepsEntries | src/llm_parcing.py:79-81 | The output has one entry per input entry, in order and under the same key. Non-dict values are copied unchanged. |
| LegacyTranslation.LegacySwapsLanguages | src/llm_parcing.py:41-67 | For a node `{text: t}` with a reply, the exact output stores the Gujarati translation under `hindi_text` and the Hindi one under `guj_text`. |
| LegacyTranslation.LegacyHindiIsGujarati | src/llm_parcing.py:62-67 | With an agent answering Hindi "H" and Gujarati "G", the older walk stores "G" as `hindi_text`, while `Translation.Annotate` stores "H". |
| Speech.CleanFilename | src/text_to_speech.py:28-57 | The result is never empty. It consists of ASCII lower-case letters, digits and underscores, and neither starts nor ends with `_`. An empty name gives `unnamed`. A name that cleans to nothing gives `unnamed_<now>`. |
| Speech.CleanNameKept | src/text_to_speech.py:44-53 | A name that is already clean comes back unchanged. |
| Speech.CleanFilenameIdempotent | src/text_to_speech.py:28-53 | Cleaning a cleaned name changes nothing, whatever the clock says. |
| Speech.SupportedLanguages | src/text_to_speech.py:22-26 | The voice table knows exactly `en`, `hi` and `gu`. |
| Speech.CreateTtsFile | src/text_to_speech.py:59-103 | The outcome is one of the following. Blank text is skipped. An unknown language is rejected (`ValueError`). A file is created exactly when synthesis with the language's voice succeeds, and it is created at the given path. |
| Speech.CreateAndUpload | src/text_to_speech.py:105-170 | The function raises exactly for a truthy non-string text. Blank text gives no id. A returned id is non-empty and only ever comes from a non-blank string. |
| Speech.UploadedExactly | src/text_to_speech.py:118-158 | An id is returned exactly when the text is non-blank, the language is known, synthesis succeeds into a named temporary file, and the upload returns a non-empty id. That id is the one returned. |
| Speech.ArtifactNameSafe | src/text_to_speech.py:194-215 | Every audio file name ends in `_<lang>.mp3` and is made of word characters and the dot. |
| Speech.SectionFileIds | src/text_to_speech.py:211-227 | For a section without file id keys of its own, for each language, the section gains `<lang>_speech_file_id` exactly when its field is present and truthy. The key holds the upload id, or the sentinel when there is none. |
| Speech.SectionSubtopics | src/text_to_speech.py:229-232 | A non-empty `subtopics` dict is replaced by its children processed with this section's key as their parent. |
| Speech.SynthChildren | src/text_to_speech.py:230-232 | Processing the children keeps their keys in order. |
| Speech.SynthesizeTree | src/text_to_speech.py:182-260 | A falsy input gives `{}`. A truthy non-dict comes back as it is. A dict keeps its section keys in order. |
| Speech.SynthSectionErased | src/text_to_speech.py:186-236 | For a section with no repeated key in any dict and no `_speech_file_id` key at any depth, processing it only adds such keys: removing them gives the section back. |
| Speech.SynthesizeTreeErased | src/text_to_speech.py:238-255 | For a truthy input with no repeated key in any dict and no `_speech_file_id` key at any depth, removing those keys from the processed tree gives the input tree back. |
| App.IsDocxName | app.py:308-312 | A name is accepted exactly when its last five characters, lower-cased, spell `.docx`. |
| App.DocxNameIgnoresCase | app.py:308 | Lower-casing a name does not change whether it is accepted. |
| App.CollectIdsSpec | app.py:342-351 | The collection raises exactly when some id it reaches is a non-empty list or dict. Otherwise it gathers exactly the truthy values under `_speech_file_id` keys at any depth, the sentinel included, and never looks inside such a value. |
| App.SpeechUrlKey | app.py:366 | The URL key of `<stem>_speech_file_id` is the replaced stem followed by `_speech_url`. |
| App.UrlKeyOfIdKey | app.py:363-366 | The URL key of an id key ends in `_speech_url`, and no id key does. |
| App.ShortUrlKey | app.py:366 | For a language code shorter than eight characters, the file key `<code>_speech_file_id` gets the URL key `<code>_speech_url`. |
| App.AddUrlsItems | app.py:373-374 | A merged list keeps its length. |
| App.AddUrlsKeepsEntries | app.py:368-371 | In a merged dict, every key that is not a URL key keeps its value when it is an id with a URL or a scalar. Any other container is merged in turn. |
| App.AddUrlsLinks | app.py:363-367 | An id key keeps its id. It gains the URL key holding `urls[id]` exactly when its value is truthy and known to the lookup. A falsy id, or one the lookup does not know, gets no URL key. |
| App.AddUrlsRoundTrip | app.py:359-375 | For an input with no repeated key in any dict and no `_speech_url` key at any depth, removing the `_speech_url` keys from the merged data gives the input back: same keys in the same places, same list lengths, same scalars. |
| App.ProcessDocument | app.py:308-411 | The route answers 400 exactly for a non-`.docx` name. It answers 500 exactly when the id collection raises. Otherwise it returns the speech tree merged with the URLs the lookup gives for exactly the ids the tree holds. |
| App.ProcessDocumentRoundTrip | app.py:353-376 | A successful response, with its URL keys removed, is the tree the speech step produced. |
| App.ProcessDocumentAsWritten | app.py:337-356 | The route as written never answers with data. A name that is not `.docx` gets 400, and every other request ends in 500, because the storage manager has no `get_file_urls` method. |
| App.EmptyDocumentSucceeds | app.py:308-404 | Under the intended route, an empty document with an accepted name gets a successful answer holding the empty dict. |
| App.AsWrittenRejectsEmptyDocument | app.py:356 | For the empty document `notes.docx`, the intended route answers with `{}` while the route as written answers 500. |

## Left out

- Reading the `.docx` file (python-docx): the document is given as its paragraph sequence. Left out with it are the file-existence and corrupt-package errors, `save_to_json`, and the console summaries and previews.
- The language model (agno/Groq agent and its prompt configuration): it is the parameter `agent`. A reply, a reply without content and an exception are its three outcomes.
- edge_tts synthesis, temporary files and the whole storage client (`src/supabase_client.py`): they are the parameters `synthesize`, `tempPath` and `upload`.
- `get_file_urls`: app.py calls it, but src/supabase_client.py does not define it (see Findings). The intended route `App.ProcessDocument` takes the id-to-URL query as the parameter `lookup`.
- The sync/async wrapper `process_brick_masonry_data`: inside the async route, a running event loop makes it return a pending task rather than the tree. That is concurrency plumbing; the model composes the route with the awaited tree.
- Time: the `generated_at` timestamp is not part of the uploaded metadata. The request's processing time and timestamp are not part of the response. One clock reading `now` stands for every `datetime.now()` call of a run.
- Unicode: `\w` and `.lower()` are modelled on ASCII letters, digits and `_`. Whitespace follows Python's `str.isspace` list.
- Speech.CleanFilename: the model turns every non-ASCII character into `_`, where Python's `\w` keeps Unicode letters and digits and `.lower()` lower-cases them. For example, `Café` cleans to `caf` in the model and to `café` in Python, and `é` cleans to `unnamed_<now>` in the model and to `é` in Python. The `IsCleanName` guarantee (ASCII `[a-z0-9_]` only) holds of the model, not of the source on non-ASCII names. The same restriction carries over to `Speech.CleanNameKept`, `Speech.CleanFilenameIdempotent` and `Speech.ArtifactNameSafe`.
- Floating-point numbers: JSON numbers are integers. A float `0.0`, which is also falsy, is not modelled.
- Logging, `utils/logger.py`, the FastAPI application around the route (middleware, health, metrics), the intermediate-file writes, and the scripts `debug_supabase.py`, `get_file_urls.py` and `test.py`.
- Speech.CleanFilename: a non-string name is not modelled, because the callers only pass dict keys, which are strings in JSON.
- App.AddUrls: an id key holding a non-empty list or dict would make Python's `value in urls` raise. The model treats such a value as a container instead. The route never gets there, because `App.CollectIds` already fails on the same tree and `App.ProcessDocument` answers 500.
- App.ProcessDocumentRoundTrip: it assumes that the speech tree holds no `_speech_url` key and no repeated key, instead of deriving that from the document. A heading text can itself end in `_speech_url`.
- Translation.AnnotateTranslates: stated only for dicts without a `hindi_text`/`guj_text` key of their own. With one, the output also holds that key when `text` is missing (`{"hindi_text": "x"}` keeps it), and the last assignment wins: on `{"text": "t", "hindi_text": "old"}` the copied `"old"` replaces the translation, while a `hindi_text` placed before `text` is overwritten by it.
- Translation.AnnotateRoundTrip: it covers inputs whose containers are all truthy and that hold no `hindi_text`/`guj_text` key. A falsy container becomes `{}`, and an existing translation key is overwritten, so neither comes back.

## Findings

| source | as written | input that shows it | evidently intended | confidence | as-written member | corrected member |
|---|---|---|---|---|---|---|
| src/llm_parcing.py:41 | `translate_text_with_agent` returns `(gujrati, hindi)`, and the caller at line 62 binds it as `hindi_text, guj_text`. | `{"Bricks": {"text": "brick"}}`, with an agent answering Hindi "H" and Gujarati "G". The output has `hindi_text` "G" and `guj_text` "H". | `hindi_text` holds the Hindi translation and `guj_text` the Gujarati one, as in src/llm_parsing.py. | not executed | LegacyTranslation.LegacySwapsLanguages | Translation.AnnotateTranslates |
| app.py:356 | `supabase_manager.get_file_urls(list(file_ids))` calls a method that `SupabaseManager` (src/supabase_client.py) does not define. The `AttributeError` reaches the handler at lines 406-411, so every `.docx` upload gets status 500. Independently, `process_complete_dataset` inside the running event loop returns a pending task rather than the tree (src/text_to_speech.py:273-275). | Any empty `.docx` document, e.g. `notes.docx`. | The route answers 200 with the speech tree merged with the URLs of its ids. | not executed | App.ProcessDocumentAsWritten | App.ProcessDocument |
