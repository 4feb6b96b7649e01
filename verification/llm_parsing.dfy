/** The translation walk of src/llm_parsing.py: every non-blank string stored
    under a `text` key gains `hindi_text` and `guj_text` siblings, and the
    rest of the JSON value is rebuilt around them. The language model is the
    parameter `agent`. */
module Translation {
  import opened Wrappers
  import opened Text
  import opened OrderedMap
  import opened JsonValue

  /** What one call of the agent yields: the two translations, a response
      without content, or an exception. */
  datatype Reply = Reply(hindi: string, gujarati: string) | NoContent | Raised

  type Agent = string -> Reply

  /** `translate_text_with_agent`: `(hindi, gujarati)`, or a pair of empty
      strings when the text is blank or the agent gives no translation. */
  function TranslateText(text: string, agent: Agent): (r: (string, string))
    ensures Strip(text) == "" ==> r == ("", "")
    ensures Strip(text) != "" && agent(text).Reply? ==> r.0 == agent(text).hindi && r.1 == agent(text).gujarati
    ensures !agent(text).Reply? ==> r == ("", "")
  {
    if Strip(text) == "" then ("", "")
    else match agent(text)
      case Reply(hindi, gujarati) => (hindi, gujarati)
      case _ => ("", "")
  }

  /** A blank text is never sent to the agent: any two agents give the same
      answer for it. */
  lemma BlankNotSent(text: string, a: Agent, b: Agent)
    requires IsBlank(text)
    ensures TranslateText(text, a) == TranslateText(text, b) == ("", "")
  {
    StripEmptyIffBlank(text);
  }

  /** The two keys the walk adds. */
  predicate IsTranslationKey(k: string)
  {
    k == "hindi_text" || k == "guj_text"
  }

  /** An entry whose value the walk translates: a non-blank string under
      the key `text`. */
  predicate IsTranslatable(e: Entry<Json>)
  {
    e.key == "text" && e.value.JStr? && Strip(e.value.s) != ""
  }

  /** `process_json_with_translations`: a falsy value becomes `{}`, a dict is
      rebuilt by assigning, in order, the entries each of its entries
      contributes, a list is processed item by item, and any other value is
      returned as it is. */
  function Annotate(j: Json, agent: Agent): Json
  {
    if !Truthy(j) then EmptyObject
    else match j
      case JObj(fs) => JObj(FromEntries(Assignments(fs, agent)))
      case JArr(xs) => JArr(AnnotateItems(xs, agent))
      case _ => j
  }

  function AnnotateItems(xs: seq<Json>, agent: Agent): (r: seq<Json>)
    ensures |r| == |xs|
  {
    if |xs| == 0 then [] else [Annotate(xs[0], agent)] + AnnotateItems(xs[1..], agent)
  }

  /** The assignments to `processed` made by the loop over the entries `fs`. */
  function Assignments(fs: Fields, agent: Agent): Fields
  {
    if |fs| == 0 then [] else Assignment(fs[0], agent) + Assignments(fs[1..], agent)
  }

  /** The assignments made for one entry: the `update` with the text and its
      two translations, the processed container, or the value as it is. */
  function Assignment(e: Entry<Json>, agent: Agent): Fields
  {
    if IsTranslatable(e) then
      var (hindi, gujarati) := TranslateText(e.value.s, agent);
      [Entry("text", e.value), Entry("hindi_text", JStr(hindi)), Entry("guj_text", JStr(gujarati))]
    else if IsContainer(e.value) then [Entry(e.key, Annotate(e.value, agent))]
    else [e]
  }

  /** `add_translations_to_data`: `{}` for a falsy input, the walk otherwise. */
  function AddTranslations(data: Json, agent: Agent): (r: Json)
    ensures !Truthy(data) ==> r == EmptyObject
    ensures r.JObj? || r.JArr? || r == data
  {
    if !Truthy(data) then EmptyObject else Annotate(data, agent)
  }

  /** The empty-input guard of `add_translations_to_data` agrees with the one
      the walk applies itself. */
  lemma AddTranslationsIsAnnotate(data: Json, agent: Agent)
    ensures AddTranslations(data, agent) == Annotate(data, agent)
  {
  }

  // ---------------------------------------------------------------------
  // Every dict the walk builds is a dict

  predicate ValuesWellFormed(fs: Fields)
  {
    forall e :: e in fs ==> WellFormed(e.value)
  }

  lemma {:induction false} AnnotateWellFormed(j: Json, agent: Agent)
    ensures WellFormed(Annotate(j, agent))
  {
    if Truthy(j) {
      match j
      case JObj(fs) =>
        var es := Assignments(fs, agent);
        AssignmentsWellFormed(fs, agent);
        FromEntriesUniqueKeys(es);
        FromEntriesEntries(es);
        assert ValuesWellFormed(FromEntries(es));
      case JArr(xs) =>
        AnnotateItemsWellFormed(xs, agent);
      case _ =>
    }
  }

  lemma {:induction false} AnnotateItemsWellFormed(xs: seq<Json>, agent: Agent)
    ensures forall i :: 0 <= i < |xs| ==> WellFormed(AnnotateItems(xs, agent)[i])
  {
    if |xs| > 0 {
      AnnotateWellFormed(xs[0], agent);
      AnnotateItemsWellFormed(xs[1..], agent);
    }
  }

  lemma {:induction false} AssignmentsWellFormed(fs: Fields, agent: Agent)
    ensures ValuesWellFormed(Assignments(fs, agent))
  {
    if |fs| > 0 {
      var e := fs[0];
      if !IsTranslatable(e) && IsContainer(e.value) {
        AnnotateWellFormed(e.value, agent);
      }
      AssignmentsWellFormed(fs[1..], agent);
    }
  }

  // ---------------------------------------------------------------------
  // What a processed dict holds

  /** The value the walk stores for an entry that is not a translation:
      containers are processed, anything else is copied. */
  function Kept(v: Json, agent: Agent): Json
  {
    if IsContainer(v) then Annotate(v, agent) else v
  }

  function KeptOption(o: Option<Json>, agent: Agent): Option<Json>
  {
    if o.Some? then Some(Kept(o.value, agent)) else None
  }

  lemma AssignmentLastValue(e: Entry<Json>, agent: Agent, k: string)
    requires !IsTranslationKey(k)
    ensures LastValue(Assignment(e, agent), k) == KeptOption(LastValue([e], k), agent)
  {
    if IsTranslatable(e) {
      var a := Assignment(e, agent);
      assert a[..2][..1] == [Entry("text", e.value)];
    }
  }

  /** Under a key other than the two translation keys, the assignments end
      with the kept form of the entry's last value. */
  lemma {:induction false} AssignmentsLastValue(fs: Fields, agent: Agent, k: string)
    requires !IsTranslationKey(k)
    ensures LastValue(Assignments(fs, agent), k) == KeptOption(LastValue(fs, k), agent)
  {
    if |fs| > 0 {
      var e := fs[0];
      AssignmentsLastValue(fs[1..], agent, k);
      AssignmentLastValue(e, agent, k);
      LastValueAppend(Assignment(e, agent), Assignments(fs[1..], agent), k);
      LastValueAppend([e], fs[1..], k);
      assert fs == [e] + fs[1..];
    }
  }

  /** Processing a dict keeps every key that is not a translation key, with
      its value processed when it is a container and copied otherwise. */
  lemma AnnotateKeepsEntries(fs: Fields, agent: Agent, k: string)
    requires UniqueKeys(fs) && |fs| > 0 && !IsTranslationKey(k)
    ensures Annotate(JObj(fs), agent).JObj?
    ensures Get(Annotate(JObj(fs), agent).fields, k) == KeptOption(Get(fs, k), agent)
  {
    GetFromEntries(Assignments(fs, agent), k);
    AssignmentsLastValue(fs, agent, k);
    GetIsLastValue(fs, k);
  }

  /** The translation a dict receives: that of its `text` entry, when that
      is a non-blank string. */
  function Translation(fs: Fields, agent: Agent): Option<(string, string)>
  {
    var v := Get(fs, "text");
    if v.Some? then EntryTranslation(Entry("text", v.value), agent) else None
  }

  /** The translation one entry contributes. */
  function EntryTranslation(e: Entry<Json>, agent: Agent): Option<(string, string)>
  {
    if IsTranslatable(e) then Some(TranslateText(e.value.s, agent)) else None
  }

  function HindiOf(tr: Option<(string, string)>): Option<Json>
  {
    if tr.Some? then Some(JStr(tr.value.0)) else None
  }

  function GujaratiOf(tr: Option<(string, string)>): Option<Json>
  {
    if tr.Some? then Some(JStr(tr.value.1)) else None
  }

  predicate NoTranslationKeys(fs: Fields)
  {
    forall i :: 0 <= i < |fs| ==> !IsTranslationKey(fs[i].key)
  }

  lemma AssignmentTranslation(e: Entry<Json>, agent: Agent)
    requires !IsTranslationKey(e.key)
    ensures LastValue(Assignment(e, agent), "hindi_text") == HindiOf(EntryTranslation(e, agent))
    ensures LastValue(Assignment(e, agent), "guj_text") == GujaratiOf(EntryTranslation(e, agent))
  {
  }

  lemma {:induction false} AssignmentsTranslation(fs: Fields, agent: Agent)
    requires UniqueKeys(fs) && NoTranslationKeys(fs)
    ensures LastValue(Assignments(fs, agent), "hindi_text") == HindiOf(Translation(fs, agent))
    ensures LastValue(Assignments(fs, agent), "guj_text") == GujaratiOf(Translation(fs, agent))
  {
    if |fs| > 0 {
      var e := fs[0];
      var rest := fs[1..];
      UniqueTail(fs);
      assert NoTranslationKeys(rest);
      AssignmentsTranslation(rest, agent);
      AssignmentTranslation(e, agent);
      LastValueAppend(Assignment(e, agent), Assignments(rest, agent), "hindi_text");
      LastValueAppend(Assignment(e, agent), Assignments(rest, agent), "guj_text");
      if e.key == "text" {
        assert Translation(fs, agent) == EntryTranslation(e, agent);
        assert Translation(rest, agent) == None;
      } else {
        assert Translation(fs, agent) == Translation(rest, agent);
        assert EntryTranslation(e, agent) == None;
      }
    }
  }

  /** A dict gains `hindi_text` and `guj_text` exactly when its `text` is a
      non-blank string, and they hold that string's two translations. */
  lemma AnnotateTranslates(fs: Fields, agent: Agent)
    requires UniqueKeys(fs) && |fs| > 0 && NoTranslationKeys(fs)
    ensures Annotate(JObj(fs), agent).JObj?
    ensures Get(Annotate(JObj(fs), agent).fields, "hindi_text") == HindiOf(Translation(fs, agent))
    ensures Get(Annotate(JObj(fs), agent).fields, "guj_text") == GujaratiOf(Translation(fs, agent))
  {
    var es := Assignments(fs, agent);
    assert Annotate(JObj(fs), agent) == JObj(FromEntries(es));
    GetFromEntries(es, "hindi_text");
    GetFromEntries(es, "guj_text");
    AssignmentsTranslation(fs, agent);
  }

  // ---------------------------------------------------------------------
  // Removing the translations gives the input back

  /** A value the walk rebuilds unchanged apart from the translations: it is
      truthy, holds no translation key, and the same holds for every
      container inside it and every list item. Falsy containers and list
      items would become `{}`. */
  predicate Stable(j: Json)
  {
    Truthy(j) &&
    match j
    case JObj(fs) =>
      forall i :: 0 <= i < |fs| ==>
        !IsTranslationKey(fs[i].key) && (IsContainer(fs[i].value) ==> Stable(fs[i].value))
    case JArr(xs) => forall i :: 0 <= i < |xs| ==> Stable(xs[i])
    case _ => true
  }

  lemma {:induction false} AnnotateRoundTrip(j: Json, agent: Agent)
    requires WellFormed(j) && Stable(j)
    ensures Prune(Annotate(j, agent), IsTranslationKey) == j
  {
    match j
    case JObj(fs) =>
      var es := Assignments(fs, agent);
      AssignmentsRoundTrip(fs, agent);
      PruneFromEntries(es, IsTranslationKey);
      FromEntriesOfUnique(fs);
    case JArr(xs) =>
      AnnotateItemsRoundTrip(xs, agent);
    case _ =>
  }

  lemma {:induction false} AnnotateItemsRoundTrip(xs: seq<Json>, agent: Agent)
    requires forall i :: 0 <= i < |xs| ==> WellFormed(xs[i]) && Stable(xs[i])
    ensures PruneItems(AnnotateItems(xs, agent), IsTranslationKey) == xs
  {
    if |xs| > 0 {
      AnnotateRoundTrip(xs[0], agent);
      AnnotateItemsRoundTrip(xs[1..], agent);
      assert xs == [xs[0]] + xs[1..];
    }
  }

  lemma AssignmentRoundTrip(e: Entry<Json>, agent: Agent)
    requires !IsTranslationKey(e.key) && WellFormed(e.value) && (IsContainer(e.value) ==> Stable(e.value))
    requires IsContainer(e.value) && !IsTranslatable(e) ==> Prune(Annotate(e.value, agent), IsTranslationKey) == e.value
    ensures PruneFields(Assignment(e, agent), IsTranslationKey) == [e]
  {
    var a := Assignment(e, agent);
    if IsTranslatable(e) {
      calc {
        PruneFields(a, IsTranslationKey);
        [Entry("text", Prune(e.value, IsTranslationKey))] + PruneFields(a[1..], IsTranslationKey);
        [Entry("text", e.value)] + PruneFields(a[1..][1..], IsTranslationKey);
        [e] + PruneFields(a[1..][1..][1..], IsTranslationKey);
        { assert a[1..][1..][1..] == []; }
        [e];
      }
    } else if !IsContainer(e.value) {
      assert Prune(e.value, IsTranslationKey) == e.value;
    }
  }

  lemma {:induction false} AssignmentsRoundTrip(fs: Fields, agent: Agent)
    requires forall i :: 0 <= i < |fs| ==>
      !IsTranslationKey(fs[i].key) && WellFormed(fs[i].value) && (IsContainer(fs[i].value) ==> Stable(fs[i].value))
    ensures PruneFields(Assignments(fs, agent), IsTranslationKey) == fs
  {
    if |fs| > 0 {
      var e := fs[0];
      PruneFieldsConcat(Assignment(e, agent), Assignments(fs[1..], agent), IsTranslationKey);
      AssignmentsRoundTrip(fs[1..], agent);
      if !IsTranslatable(e) && IsContainer(e.value) {
        AnnotateRoundTrip(e.value, agent);
      }
      AssignmentRoundTrip(e, agent);
      assert fs == [e] + fs[1..];
    }
  }

  // ---------------------------------------------------------------------
  // The texts sent to the agent

  /** The texts the walk translates, in the order it meets them: one per
      non-blank string under a `text` key. */
  function Queries(j: Json): seq<string>
  {
    if !Truthy(j) then []
    else match j
      case JObj(fs) => FieldQueries(fs)
      case JArr(xs) => ItemQueries(xs)
      case _ => []
  }

  function ItemQueries(xs: seq<Json>): seq<string>
  {
    if |xs| == 0 then [] else Queries(xs[0]) + ItemQueries(xs[1..])
  }

  function FieldQueries(fs: Fields): seq<string>
  {
    if |fs| == 0 then []
    else
      var e := fs[0];
      (if IsTranslatable(e) then [e.value.s] else if IsContainer(e.value) then Queries(e.value) else [])
      + FieldQueries(fs[1..])
  }

  /** No query is blank. */
  lemma {:induction false} QueriesNotBlank(j: Json)
    ensures forall q :: q in Queries(j) ==> Strip(q) != ""
  {
    if Truthy(j) {
      match j
      case JObj(fs) => FieldQueriesNotBlank(fs);
      case JArr(xs) => ItemQueriesNotBlank(xs);
      case _ =>
    }
  }

  lemma {:induction false} ItemQueriesNotBlank(xs: seq<Json>)
    ensures forall q :: q in ItemQueries(xs) ==> Strip(q) != ""
  {
    if |xs| > 0 {
      QueriesNotBlank(xs[0]);
      ItemQueriesNotBlank(xs[1..]);
    }
  }

  lemma {:induction false} FieldQueriesNotBlank(fs: Fields)
    ensures forall q :: q in FieldQueries(fs) ==> Strip(q) != ""
  {
    if |fs| > 0 {
      if !IsTranslatable(fs[0]) && IsContainer(fs[0].value) {
        QueriesNotBlank(fs[0].value);
      }
      FieldQueriesNotBlank(fs[1..]);
    }
  }

  /** The agent is consulted on the queries and nothing else: two agents
      that answer every query alike give the same result. */
  lemma {:induction false} AnnotateUsesQueries(j: Json, a: Agent, b: Agent)
    requires forall q :: q in Queries(j) ==> a(q) == b(q)
    ensures Annotate(j, a) == Annotate(j, b)
  {
    if Truthy(j) {
      match j
      case JObj(fs) => AssignmentsUseQueries(fs, a, b);
      case JArr(xs) => ItemsUseQueries(xs, a, b);
      case _ =>
    }
  }

  lemma {:induction false} ItemsUseQueries(xs: seq<Json>, a: Agent, b: Agent)
    requires forall q :: q in ItemQueries(xs) ==> a(q) == b(q)
    ensures AnnotateItems(xs, a) == AnnotateItems(xs, b)
  {
    if |xs| > 0 {
      AnnotateUsesQueries(xs[0], a, b);
      ItemsUseQueries(xs[1..], a, b);
    }
  }

  lemma {:induction false} AssignmentsUseQueries(fs: Fields, a: Agent, b: Agent)
    requires forall q :: q in FieldQueries(fs) ==> a(q) == b(q)
    ensures Assignments(fs, a) == Assignments(fs, b)
  {
    if |fs| > 0 {
      var e := fs[0];
      if IsTranslatable(e) {
        assert e.value.s in FieldQueries(fs);
      } else if IsContainer(e.value) {
        AnnotateUsesQueries(e.value, a, b);
      }
      AssignmentsUseQueries(fs[1..], a, b);
    }
  }
}
