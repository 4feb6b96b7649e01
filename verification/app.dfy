/** The document route of app.py: the upload's name is checked, the
    document goes through extraction, translation and speech synthesis, the
    file ids the synthesis stored are collected, and every id the storage
    service knows gains a URL entry next to it. The document, the agent, the
    speech services and the storage service's id-to-URL lookup are
    parameters. */
module App {
  import opened Wrappers
  import opened Text
  import opened OrderedMap
  import opened JsonValue
  import DocExtractor
  import Translation
  import Speech

  // ---------------------------------------------------------------------
  // The upload check

  /** `file.filename.lower().endswith('.docx')`: the last five characters
      spell `.docx` in any mix of cases. */
  function IsDocxName(name: string): (r: bool)
    ensures r <==> |name| >= 5 && forall i :: 0 <= i < 5 ==> LowerChar(name[|name| - 5 + i]) == ".docx"[i]
  {
    var lower := Lower(name);
    assert r: EndsWith(lower, ".docx") <==> |lower| >= 5 && forall i :: 0 <= i < 5 ==> lower[|lower| - 5 + i] == ".docx"[i] by {
      if |lower| >= 5 && forall i :: 0 <= i < 5 ==> lower[|lower| - 5 + i] == ".docx"[i] {
        assert lower[|lower| - 5..] == ".docx";
      }
    }
    EndsWith(lower, ".docx")
  }

  lemma LowerCharIdempotent(c: char)
    ensures LowerChar(LowerChar(c)) == LowerChar(c)
  {
  }

  /** The check does not depend on the case of the name. */
  lemma DocxNameIgnoresCase(name: string)
    ensures IsDocxName(Lower(name)) == IsDocxName(name)
  {
    forall i | 0 <= i < |name|
      ensures LowerChar(Lower(name)[i]) == LowerChar(name[i])
    {
      LowerCharIdempotent(name[i]);
    }
  }

  // ---------------------------------------------------------------------
  // collect_file_ids

  /** An entry whose value `collect_file_ids` adds to its set: a truthy
      value under a key ending in `_speech_file_id`. */
  predicate IsIdEntry(e: Entry<Json>)
  {
    Speech.IsSpeechKey(e.key) && Truthy(e.value)
  }

  /** Both parts of a walk succeeded: the union of what they collected. */
  function Union(a: Option<set<Json>>, b: Option<set<Json>>): (r: Option<set<Json>>)
    ensures r.Some? <==> a.Some? && b.Some?
    ensures r.Some? ==> r.value == a.value + b.value
  {
    if a.Some? && b.Some? then Some(a.value + b.value) else None
  }

  /** `collect_file_ids`: the set of ids in `j`, or `None` when the walk
      raises because an id is a non-empty list or dict, which a Python set
      cannot hold. */
  function CollectIds(j: Json): Option<set<Json>>
  {
    match j
    case JObj(fs) => CollectFields(fs)
    case JArr(xs) => CollectItems(xs)
    case _ => Some({})
  }

  function CollectFields(fs: Fields): Option<set<Json>>
  {
    if |fs| == 0 then Some({}) else Union(CollectEntry(fs[0]), CollectFields(fs[1..]))
  }

  /** One entry: the id itself, the ids inside a container value, or
      nothing. The value under an id key is never searched. */
  function CollectEntry(e: Entry<Json>): Option<set<Json>>
  {
    if IsIdEntry(e) then
      if IsContainer(e.value) then None else Some({e.value})
    else if IsContainer(e.value) then CollectIds(e.value)
    else Some({})
  }

  function CollectItems(xs: seq<Json>): Option<set<Json>>
  {
    if |xs| == 0 then Some({}) else Union(CollectIds(xs[0]), CollectItems(xs[1..]))
  }

  /** `v` is stored under an id key somewhere in `j` that the walk reaches,
      that is, not inside the value of another id key. */
  predicate IdIn(j: Json, v: Json)
  {
    match j
    case JObj(fs) => exists i :: 0 <= i < |fs| && EntryHolds(fs[i], v)
    case JArr(xs) => exists i :: 0 <= i < |xs| && IdIn(xs[i], v)
    case _ => false
  }

  predicate EntryHolds(e: Entry<Json>, v: Json)
  {
    if IsIdEntry(e) then e.value == v else IsContainer(e.value) && IdIn(e.value, v)
  }

  /** Some id the walk reaches is a non-empty list or dict. */
  predicate Unhashable(j: Json)
  {
    match j
    case JObj(fs) => exists i :: 0 <= i < |fs| && EntryUnhashable(fs[i])
    case JArr(xs) => exists i :: 0 <= i < |xs| && Unhashable(xs[i])
    case _ => false
  }

  predicate EntryUnhashable(e: Entry<Json>)
  {
    if IsIdEntry(e) then IsContainer(e.value) else IsContainer(e.value) && Unhashable(e.value)
  }

  /** The walk raises exactly when an id it reaches is unhashable, and
      otherwise collects exactly the ids it reaches, including the failure
      sentinel the speech step stores. */
  lemma {:induction false} CollectIdsSpec(j: Json)
    ensures CollectIds(j).None? <==> Unhashable(j)
    ensures CollectIds(j).Some? ==> forall v :: v in CollectIds(j).value <==> IdIn(j, v)
  {
    match j
    case JObj(fs) => CollectFieldsSpec(fs);
    case JArr(xs) => CollectItemsSpec(xs);
    case _ =>
  }

  lemma {:induction false} CollectFieldsSpec(fs: Fields)
    ensures CollectFields(fs).None? <==> exists i :: 0 <= i < |fs| && EntryUnhashable(fs[i])
    ensures CollectFields(fs).Some? ==>
      forall v :: v in CollectFields(fs).value <==> exists i :: 0 <= i < |fs| && EntryHolds(fs[i], v)
  {
    if |fs| > 0 {
      CollectEntrySpec(fs[0]);
      CollectFieldsSpec(fs[1..]);
      assert forall i :: 1 <= i < |fs| ==> fs[i] == fs[1..][i - 1];
    }
  }

  lemma CollectEntrySpec(e: Entry<Json>)
    ensures CollectEntry(e).None? <==> EntryUnhashable(e)
    ensures CollectEntry(e).Some? ==> forall v :: v in CollectEntry(e).value <==> EntryHolds(e, v)
  {
    if !IsIdEntry(e) && IsContainer(e.value) {
      CollectIdsSpec(e.value);
    }
  }

  lemma {:induction false} CollectItemsSpec(xs: seq<Json>)
    ensures CollectItems(xs).None? <==> exists i :: 0 <= i < |xs| && Unhashable(xs[i])
    ensures CollectItems(xs).Some? ==>
      forall v :: v in CollectItems(xs).value <==> exists i :: 0 <= i < |xs| && IdIn(xs[i], v)
  {
    if |xs| > 0 {
      CollectIdsSpec(xs[0]);
      CollectItemsSpec(xs[1..]);
      assert forall i :: 1 <= i < |xs| ==> xs[i] == xs[1..][i - 1];
    }
  }

  // ---------------------------------------------------------------------
  // add_urls_to_data

  /** `key.replace('_file_id', '_url')`. */
  function UrlKey(k: string): string
  {
    ReplaceAll(k, "_file_id", "_url")
  }

  /** The keys the URL merge adds, as they come out of `UrlKey` for the id
      keys. */
  predicate IsUrlKey(k: string)
  {
    EndsWith(k, "_speech_url")
  }

  /** No occurrence of `_file_id` straddles the seam before `_speech`: it
      would have to put that underscore at its own sixth place, where the
      `s` after it would have to be an `i`. */
  lemma StemSeam(p: string)
    ensures NoMatchAcross(p, "_speech", "_file_id")
  {
    var pat := "_file_id";
    var s := "_speech";
    forall i, j | 0 <= i < |p| < j <= |p| + |s| && j == i + |pat|
      ensures (p + s)[i..j] != pat
    {
      var d := |p| - i;
      assert (p + s)[i..j][d] == s[0];
      if d == 5 {
        assert (p + s)[i..j][6] == s[1];
      }
    }
  }

  /** No occurrence of `_file_id` straddles the seam between a stem ending
      in `_speech` and `_file_id`: its underscore would again have to sit
      at the sixth place, and the first place would then hold the `p` of
      `speech`. */
  lemma SuffixSeam(p: string)
    ensures NoMatchAcross(p + "_speech", "_file_id", "_file_id")
  {
    var pat := "_file_id";
    var q := p + "_speech";
    forall i, j | 0 <= i < |q| < j <= |q| + |pat| && j == i + |pat|
      ensures (q + pat)[i..j] != pat
    {
      var d := |q| - i;
      assert (q + pat)[i..j][d] == pat[0];
      if d == 5 {
        assert (q + pat)[i..j][0] == q[|q| - 5] == "_speech"[2];
      }
    }
  }

  /** The replacement leaves the stem of an id key as it is apart from its
      own occurrences of `_file_id`, and turns the suffix into
      `_speech_url`. */
  lemma SpeechUrlKey(p: string)
    ensures UrlKey(p + "_speech_file_id") == UrlKey(p) + "_speech_url"
  {
    var q := p + "_speech";
    assert p + "_speech_file_id" == q + "_file_id";
    SuffixSeam(p);
    ReplaceAllConcat(q, "_file_id", "_file_id", "_url");
    ReplaceAllShortThenPat([], "_file_id", "_url");
    StemSeam(p);
    ReplaceAllConcat(p, "_speech", "_file_id", "_url");
  }

  /** The URL key of an id key is a URL key, and no id key is one. */
  lemma UrlKeyOfIdKey(k: string)
    requires Speech.IsSpeechKey(k)
    ensures IsUrlKey(UrlKey(k)) && !IsUrlKey(k)
  {
    var p := k[..|k| - 15];
    assert k == p + "_speech_file_id";
    SpeechUrlKey(p);
    var u := UrlKey(k);
    assert u[|u| - 11..] == "_speech_url";
    assert k[|k| - 1] == 'd';
  }

  /** The file id keys the speech step writes, whose language codes are
      too short to hold `_file_id`, get `<code>_speech_url`. */
  lemma ShortUrlKey(code: string)
    requires |code| < 8
    ensures UrlKey(Speech.FileKey(code)) == code + "_speech_url"
  {
    SpeechUrlKey(code);
  }

  /** The URL an entry gains: that of its id, when the key is an id key,
      the value truthy and the lookup knows it. */
  function Link(e: Entry<Json>, urls: map<Json, Json>): Option<Json>
  {
    if IsIdEntry(e) && e.value in urls then Some(urls[e.value]) else None
  }

  /** `add_urls_to_data`: dicts are rebuilt by assigning, in order, the
      entries each of their entries contributes, lists are processed item by
      item, anything else is returned as it is. */
  function AddUrls(j: Json, urls: map<Json, Json>): Json
  {
    match j
    case JObj(fs) => JObj(FromEntries(UrlAssignments(fs, urls)))
    case JArr(xs) => JArr(AddUrlsItems(xs, urls))
    case _ => j
  }

  function AddUrlsItems(xs: seq<Json>, urls: map<Json, Json>): (r: seq<Json>)
    ensures |r| == |xs|
  {
    if |xs| == 0 then [] else [AddUrls(xs[0], urls)] + AddUrlsItems(xs[1..], urls)
  }

  function UrlAssignments(fs: Fields, urls: map<Json, Json>): Fields
  {
    if |fs| == 0 then [] else UrlAssignment(fs[0], urls) + UrlAssignments(fs[1..], urls)
  }

  /** The assignments for one entry: the URL and then the id, the processed
      container, or the value as it is. */
  function UrlAssignment(e: Entry<Json>, urls: map<Json, Json>): Fields
  {
    if Link(e, urls).Some? then [Entry(UrlKey(e.key), Link(e, urls).value), e]
    else if IsContainer(e.value) then [Entry(e.key, AddUrls(e.value, urls))]
    else [e]
  }

  // What a merged dict holds

  /** The value the merge stores under an entry's own key: an id with a URL
      and any other scalar are copied, any other container is processed. */
  function KeptValue(k: string, v: Json, urls: map<Json, Json>): Json
  {
    if Link(Entry(k, v), urls).None? && IsContainer(v) then AddUrls(v, urls) else v
  }

  function KeptOption(k: string, o: Option<Json>, urls: map<Json, Json>): Option<Json>
  {
    if o.Some? then Some(KeptValue(k, o.value, urls)) else None
  }

  lemma UrlAssignmentLastValue(e: Entry<Json>, urls: map<Json, Json>, k: string)
    requires !IsUrlKey(k)
    ensures LastValue(UrlAssignment(e, urls), k) == KeptOption(k, LastValue([e], k), urls)
  {
    if Link(e, urls).Some? {
      UrlKeyOfIdKey(e.key);
      var a := UrlAssignment(e, urls);
      assert a[..1] == [Entry(UrlKey(e.key), Link(e, urls).value)];
    }
  }

  /** Under any key that is not a URL key, the assignments end with the kept
      form of the entry's last value. */
  lemma {:induction false} UrlAssignmentsLastValue(fs: Fields, urls: map<Json, Json>, k: string)
    requires !IsUrlKey(k)
    ensures LastValue(UrlAssignments(fs, urls), k) == KeptOption(k, LastValue(fs, k), urls)
  {
    if |fs| > 0 {
      var e := fs[0];
      UrlAssignmentsLastValue(fs[1..], urls, k);
      UrlAssignmentLastValue(e, urls, k);
      LastValueAppend(UrlAssignment(e, urls), UrlAssignments(fs[1..], urls), k);
      LastValueAppend([e], fs[1..], k);
      assert fs == [e] + fs[1..];
    }
  }

  /** No key of `fs` is a URL key, and no id key other than `k` has the
      same URL key as `k`. */
  predicate UrlKeyFree(fs: Fields, k: string)
  {
    forall i :: 0 <= i < |fs| ==>
      !IsUrlKey(fs[i].key) && (Speech.IsSpeechKey(fs[i].key) && fs[i].key != k ==> UrlKey(fs[i].key) != UrlKey(k))
  }

  lemma UrlAssignmentLink(e: Entry<Json>, urls: map<Json, Json>, k: string)
    requires Speech.IsSpeechKey(k) && !IsUrlKey(e.key)
    requires Speech.IsSpeechKey(e.key) && e.key != k ==> UrlKey(e.key) != UrlKey(k)
    ensures LastValue(UrlAssignment(e, urls), UrlKey(k)) == if e.key == k then Link(e, urls) else None
  {
    UrlKeyOfIdKey(k);
    var a := UrlAssignment(e, urls);
    assert e.key != UrlKey(k);
    if Link(e, urls).Some? {
      assert a[..1] == [Entry(UrlKey(e.key), Link(e, urls).value)];
      assert LastValue(a, UrlKey(k)) == LastValue(a[..1], UrlKey(k));
      assert a[..1][..0] == [];
      if e.key != k {
        assert UrlKey(e.key) != UrlKey(k);
        assert LastValue(a[..1], UrlKey(k)) == LastValue(a[..1][..0], UrlKey(k));
      }
    }
  }

  /** Under the URL key of the id key `k`, the assignments of a dict without
      repeated keys hold the URL of `k`'s id, if it has one. */
  lemma {:induction false} UrlAssignmentsLink(fs: Fields, urls: map<Json, Json>, k: string)
    requires Speech.IsSpeechKey(k) && UniqueKeys(fs) && UrlKeyFree(fs, k)
    ensures LastValue(UrlAssignments(fs, urls), UrlKey(k)) ==
      if Get(fs, k).Some? then Link(Entry(k, Get(fs, k).value), urls) else None
  {
    if |fs| > 0 {
      var e := fs[0];
      UniqueTail(fs);
      UrlAssignmentsLink(fs[1..], urls, k);
      UrlAssignmentLink(e, urls, k);
      LastValueAppend(UrlAssignment(e, urls), UrlAssignments(fs[1..], urls), UrlKey(k));
      if e.key == k {
        assert e == Entry(k, Get(fs, k).value);
      }
    }
  }

  /** In a merged dict the entries of the input keep their keys, an id with
      a URL and every scalar keep their value, and any other container is
      merged in turn. */
  lemma AddUrlsKeepsEntries(fs: Fields, urls: map<Json, Json>, k: string)
    requires UniqueKeys(fs) && !IsUrlKey(k)
    ensures Get(AddUrls(JObj(fs), urls).fields, k) == KeptOption(k, Get(fs, k), urls)
  {
    GetFromEntries(UrlAssignments(fs, urls), k);
    UrlAssignmentsLastValue(fs, urls, k);
    GetIsLastValue(fs, k);
  }

  /** An id key keeps its id, and gains a URL key holding the URL of its id
      exactly when its value is truthy and the lookup knows it; an id the
      lookup does not know, such as the failure sentinel, gains nothing. */
  lemma AddUrlsLinks(fs: Fields, urls: map<Json, Json>, k: string, v: Json)
    requires UniqueKeys(fs) && UrlKeyFree(fs, k)
    requires Speech.IsSpeechKey(k) && Get(fs, k) == Some(v)
    ensures !IsContainer(v) ==> Get(AddUrls(JObj(fs), urls).fields, k) == Some(v)
    ensures Truthy(v) && v in urls ==> Get(AddUrls(JObj(fs), urls).fields, UrlKey(k)) == Some(urls[v])
    ensures !(Truthy(v) && v in urls) ==> Get(AddUrls(JObj(fs), urls).fields, UrlKey(k)) == None
  {
    UrlKeyOfIdKey(k);
    AddUrlsKeepsEntries(fs, urls, k);
    GetFromEntries(UrlAssignments(fs, urls), UrlKey(k));
    UrlAssignmentsLink(fs, urls, k);
  }

  // The merge only adds URL keys

  /** Removing the URL keys from the merged data gives the data back: every
      key keeps its place and every list its length. */
  lemma {:induction false} AddUrlsRoundTrip(j: Json, urls: map<Json, Json>)
    requires WellFormed(j) && NoKeyDeep(j, IsUrlKey)
    ensures Prune(AddUrls(j, urls), IsUrlKey) == j
  {
    match j
    case JObj(fs) =>
      UrlAssignmentsRoundTrip(fs, urls);
      PruneFromEntries(UrlAssignments(fs, urls), IsUrlKey);
      FromEntriesOfUnique(fs);
    case JArr(xs) =>
      AddUrlsItemsRoundTrip(xs, urls);
    case _ =>
  }

  lemma {:induction false} AddUrlsItemsRoundTrip(xs: seq<Json>, urls: map<Json, Json>)
    requires forall i :: 0 <= i < |xs| ==> WellFormed(xs[i]) && NoKeyDeep(xs[i], IsUrlKey)
    ensures PruneItems(AddUrlsItems(xs, urls), IsUrlKey) == xs
  {
    if |xs| > 0 {
      AddUrlsRoundTrip(xs[0], urls);
      AddUrlsItemsRoundTrip(xs[1..], urls);
      assert xs == [xs[0]] + xs[1..];
    }
  }

  lemma UrlAssignmentRoundTrip(e: Entry<Json>, urls: map<Json, Json>)
    requires !IsUrlKey(e.key) && NoKeyDeep(e.value, IsUrlKey)
    requires Link(e, urls).None? && IsContainer(e.value) ==> Prune(AddUrls(e.value, urls), IsUrlKey) == e.value
    ensures PruneFields(UrlAssignment(e, urls), IsUrlKey) == [e]
  {
    var a := UrlAssignment(e, urls);
    PruneUnchanged(e.value, IsUrlKey);
    if Link(e, urls).Some? {
      UrlKeyOfIdKey(e.key);
      calc {
        PruneFields(a, IsUrlKey);
        PruneFields(a[1..], IsUrlKey);
        [Entry(e.key, Prune(e.value, IsUrlKey))] + PruneFields(a[1..][1..], IsUrlKey);
        { assert a[1..][1..] == []; }
        [e];
      }
    }
  }

  lemma {:induction false} UrlAssignmentsRoundTrip(fs: Fields, urls: map<Json, Json>)
    requires forall i :: 0 <= i < |fs| ==>
      !IsUrlKey(fs[i].key) && WellFormed(fs[i].value) && NoKeyDeep(fs[i].value, IsUrlKey)
    ensures PruneFields(UrlAssignments(fs, urls), IsUrlKey) == fs
  {
    if |fs| > 0 {
      var e := fs[0];
      PruneFieldsConcat(UrlAssignment(e, urls), UrlAssignments(fs[1..], urls), IsUrlKey);
      UrlAssignmentsRoundTrip(fs[1..], urls);
      if Link(e, urls).None? && IsContainer(e.value) {
        AddUrlsRoundTrip(e.value, urls);
      }
      UrlAssignmentRoundTrip(e, urls);
      assert fs == [e] + fs[1..];
    }
  }

  // ---------------------------------------------------------------------
  // process_document

  /** The route's answer: the merged data, status 400 for a name that is
      not a `.docx` name, or status 500 when a step raises. */
  datatype Response = Ok(data: Json) | BadRequest | ServerError

  /** The tree the speech step returns for the document `ps`. */
  function Synthesized(ps: seq<DocExtractor.Paragraph>, agent: Translation.Agent, svc: Speech.Services, now: nat): Json
  {
    var extracted := DocExtractor.OutlineJson(DocExtractor.Extract(ps, None));
    var translated := Translation.AddTranslations(extracted, agent);
    Speech.SynthesizeTree(translated, svc, now)
  }

  /** `process_document`: the name check, the three processing steps, the
      id collection, one lookup of all collected ids, and the URL merge.
      `lookup` stands for the storage service's id-to-URL query. */
  function ProcessDocument(name: string, ps: seq<DocExtractor.Paragraph>, agent: Translation.Agent,
                           svc: Speech.Services, now: nat, lookup: set<Json> -> map<Json, Json>): (r: Response)
    ensures r == BadRequest <==> !IsDocxName(name)
    ensures r == ServerError <==> IsDocxName(name) && Unhashable(Synthesized(ps, agent, svc, now))
    ensures r.Ok? ==>
      var tree := Synthesized(ps, agent, svc, now);
      exists ids :: (forall v :: v in ids <==> IdIn(tree, v)) && r.data == AddUrls(tree, lookup(ids))
  {
    if !IsDocxName(name) then BadRequest
    else
      var tree := Synthesized(ps, agent, svc, now);
      CollectIdsSpec(tree);
      match CollectIds(tree)
      case None => ServerError
      case Some(ids) => Ok(AddUrls(tree, lookup(ids)))
  }

  /** A successful response, with its URL keys removed, is the tree the
      speech step returned, as long as that tree held no URL key already. */
  lemma ProcessDocumentRoundTrip(name: string, ps: seq<DocExtractor.Paragraph>, agent: Translation.Agent,
                                 svc: Speech.Services, now: nat, lookup: set<Json> -> map<Json, Json>)
    requires WellFormed(Synthesized(ps, agent, svc, now)) && NoKeyDeep(Synthesized(ps, agent, svc, now), IsUrlKey)
    requires ProcessDocument(name, ps, agent, svc, now, lookup).Ok?
    ensures Prune(ProcessDocument(name, ps, agent, svc, now, lookup).data, IsUrlKey) == Synthesized(ps, agent, svc, now)
  {
    var tree := Synthesized(ps, agent, svc, now);
    AddUrlsRoundTrip(tree, lookup(CollectIds(tree).value));
  }

  /** The route as app.py writes it. The storage manager has no
      `get_file_urls` method, so every request that passes the name check
      ends in the `AttributeError` the handler turns into status 500, and
      the route never answers with data. */
  function ProcessDocumentAsWritten(name: string): (r: Response)
    ensures !r.Ok?
    ensures r == BadRequest <==> !IsDocxName(name)
  {
    if !IsDocxName(name) then BadRequest else ServerError
  }

  /** An empty document passes every step: the intended route answers with
      an empty dict. */
  lemma EmptyDocumentSucceeds(name: string, agent: Translation.Agent, svc: Speech.Services, now: nat,
                              lookup: set<Json> -> map<Json, Json>)
    requires IsDocxName(name)
    ensures ProcessDocument(name, [], agent, svc, now, lookup) == Ok(JObj([]))
  {
    EmptyDocumentTree(agent, svc, now);
    assert AddUrls(EmptyObject, lookup({})) == JObj([]);
  }

  /** The speech tree of an empty document is the empty dict. */
  lemma EmptyDocumentTree(agent: Translation.Agent, svc: Speech.Services, now: nat)
    ensures Synthesized([], agent, svc, now) == EmptyObject
    ensures CollectIds(Synthesized([], agent, svc, now)) == Some({})
  {
    assert DocExtractor.Extract([], None) == [];
    assert DocExtractor.OutlineJson([]) == EmptyObject;
  }

  lemma NotesIsDocxName()
    ensures IsDocxName("notes.docx")
  {
    var name := "notes.docx";
    assert name[5..] == ".docx";
  }

  /** An empty document named `notes.docx`: the intended route answers with
      an empty dict, the route as written with status 500. */
  lemma AsWrittenRejectsEmptyDocument(agent: Translation.Agent, svc: Speech.Services, now: nat,
                                      lookup: set<Json> -> map<Json, Json>)
    ensures ProcessDocument("notes.docx", [], agent, svc, now, lookup) == Ok(JObj([]))
    ensures ProcessDocumentAsWritten("notes.docx") == ServerError
  {
    NotesIsDocxName();
    EmptyDocumentSucceeds("notes.docx", agent, svc, now, lookup);
  }
}
