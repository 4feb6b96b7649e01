/** The older translation walk of src/llm_parcing.py. It only looks at dict
    values: a dict holding `text` is replaced by a node with exactly the keys
    `text`, `hindi_text`, `guj_text` and `subtopics`, any other dict is
    walked, and every other value is copied. Its translation function returns
    the Gujarati text first while the walk binds the pair Hindi first. */
module LegacyTranslation {
  import opened Wrappers
  import opened Text
  import opened OrderedMap
  import opened JsonValue
  import opened Translation

  /** `translate_text_with_agent` of the older module, as the pair it returns:
      the Gujarati translation first. A falsy text or a blank string gives two
      empty strings; a truthy text that is not a string (its `strip` raises)
      and an agent reply without translations give two single spaces. */
  function LegacyTranslate(text: Json, agent: Agent): (r: (string, string))
    ensures !Truthy(text) ==> r == ("", "")
    ensures Truthy(text) && !text.JStr? ==> r == (" ", " ")
    ensures text.JStr? && Strip(text.s) == "" ==> r == ("", "")
    ensures text.JStr? && Strip(text.s) != "" && !agent(text.s).Reply? ==> r == (" ", " ")
    ensures text.JStr? && Strip(text.s) != "" && agent(text.s).Reply?
        ==> r == (agent(text.s).gujarati, agent(text.s).hindi)
  {
    if !Truthy(text) then ("", "")
    else if !text.JStr? then (" ", " ")
    else if Strip(text.s) == "" then ("", "")
    else match agent(text.s)
      case Reply(hindi, gujarati) => (gujarati, hindi)
      case _ => (" ", " ")
  }

  /** On a string the agent translates, the older function returns the pair
      of the newer one in the opposite order; on a blank string both give
      empty strings. */
  lemma LegacyTranslateReversed(t: string, agent: Agent)
    requires Strip(t) == "" || agent(t).Reply?
    ensures LegacyTranslate(JStr(t), agent) == (TranslateText(t, agent).1, TranslateText(t, agent).0)
  {
  }

  /** The keys of a node made from a dict holding `text`, in order. */
  const TextNodeKeys: seq<string> := ["text", "hindi_text", "guj_text", "subtopics"]

  /** `process_json_with_translations` of the older module. `None` stands for
      the `AttributeError` raised when the walk calls `items()` on something
      that is not a dict: the input itself, or a `subtopics` value. */
  function LegacyProcess(data: Json, agent: Agent): Option<Json>
  {
    if !data.JObj? then None
    else
      var es := LegacyEntries(data.fields, agent);
      if es.None? then None else Some(JObj(FromEntries(es.value)))
  }

  /** The assignments `processed_data[key] = ...` of the loop over `fs`. */
  function LegacyEntries(fs: Fields, agent: Agent): Option<Fields>
  {
    if |fs| == 0 then Some([])
    else
      var e := LegacyEntry(fs[0], agent);
      var rest := LegacyEntries(fs[1..], agent);
      if e.None? || rest.None? then None else Some([e.value] + rest.value)
  }

  /** The assignment made for one entry of the loop. */
  function LegacyEntry(e: Entry<Json>, agent: Agent): Option<Entry<Json>>
  {
    match e.value
    case JObj(vs) =>
      (match Find(vs, "text")
       case Some(i) =>
         var t := vs[i].value;
         var (hindi, gujarati) := LegacyTranslate(t, agent);
         var sub :=
           match Find(vs, "subtopics")
           case Some(s) => LegacyProcess(vs[s].value, agent)
           case None => Some(EmptyObject);
         if sub.None? then None
         else Some(Entry(e.key, JObj([Entry("text", t), Entry("hindi_text", JStr(hindi)),
                                     Entry("guj_text", JStr(gujarati)), Entry("subtopics", sub.value)])))
       case None =>
         var r := LegacyProcess(e.value, agent);
         if r.None? then None else Some(Entry(e.key, r.value)))
    case _ => Some(e)
  }

  // ---------------------------------------------------------------------
  // When the walk raises

  /** Inputs the older walk completes on: a dict in which every `subtopics`
      value of a dict holding `text` is again such a dict, and every dict
      without `text` is one too. */
  predicate Accepts(j: Json)
  {
    j.JObj? && forall i :: 0 <= i < |j.fields| ==> EntryAccepts(j.fields[i])
  }

  predicate EntryAccepts(e: Entry<Json>)
  {
    match e.value
    case JObj(vs) =>
      if HasKey(vs, "text") then forall i :: 0 <= i < |vs| && vs[i].key == "subtopics" ==> Accepts(vs[i].value)
      else Accepts(e.value)
    case _ => true
  }

  /** The first `subtopics` entry is the only one in a dict. */
  lemma FindUnique(vs: Fields, k: string, i: nat)
    requires UniqueKeys(vs) && i < |vs| && vs[i].key == k
    ensures Find(vs, k) == Some(i)
  {
    if i > 0 {
      assert vs[0].key == Keys(vs)[0];
      assert Keys(vs[1..]) == Keys(vs)[1..];
      FindUnique(vs[1..], k, i - 1);
    }
  }

  /** On inputs whose dicts have no repeated keys, the walk succeeds exactly
      on the inputs it accepts. */
  lemma {:induction false} LegacyProcessSucceeds(data: Json, agent: Agent)
    requires WellFormed(data)
    ensures LegacyProcess(data, agent).Some? <==> Accepts(data)
  {
    if data.JObj? {
      LegacyEntriesSucceed(data.fields, agent);
    }
  }

  lemma {:induction false} LegacyEntriesSucceed(fs: Fields, agent: Agent)
    requires forall i :: 0 <= i < |fs| ==> WellFormed(fs[i].value)
    ensures LegacyEntries(fs, agent).Some? <==> forall i :: 0 <= i < |fs| ==> EntryAccepts(fs[i])
  {
    if |fs| > 0 {
      LegacyEntrySucceeds(fs[0], agent);
      LegacyEntriesSucceed(fs[1..], agent);
      assert forall i :: 1 <= i < |fs| ==> fs[i] == fs[1..][i - 1];
    }
  }

  lemma {:induction false} LegacyEntrySucceeds(e: Entry<Json>, agent: Agent)
    requires WellFormed(e.value)
    ensures LegacyEntry(e, agent).Some? <==> EntryAccepts(e)
  {
    match e.value
    case JObj(vs) =>
      FindGet(vs, "text");
      FindGet(vs, "subtopics");
      if HasKey(vs, "text") {
        match Find(vs, "subtopics")
        case Some(s) =>
          LegacyProcessSucceeds(vs[s].value, agent);
          forall i | 0 <= i < |vs| && vs[i].key == "subtopics"
            ensures i == s
          {
            FindUnique(vs, "subtopics", i);
          }
        case None =>
          assert forall i :: 0 <= i < |vs| ==> vs[i].key == Keys(vs)[i];
      } else {
        LegacyProcessSucceeds(e.value, agent);
      }
    case _ =>
  }

  // ---------------------------------------------------------------------
  // The shape of the result

  /** A value of the result: a dict that came from a dict holding `text` has
      exactly the four node keys, string translations and a walked
      `subtopics` dict; any other dict is walked; other values are free. */
  predicate NodeShaped(v: Json)
  {
    match v
    case JObj(vs) =>
      if HasKey(vs, "text") then
        Keys(vs) == TextNodeKeys && vs[1].value.JStr? && vs[2].value.JStr?
        && vs[3].value.JObj? && Shaped(vs[3].value.fields)
      else Shaped(vs)
    case _ => true
  }

  predicate Shaped(fs: Fields)
  {
    forall i :: 0 <= i < |fs| ==> NodeShaped(fs[i].value)
  }

  /** The walk keeps the keys of every entry, in order. */
  lemma {:induction false} LegacyEntriesKeys(fs: Fields, agent: Agent)
    requires LegacyEntries(fs, agent).Some?
    ensures Keys(LegacyEntries(fs, agent).value) == Keys(fs)
  {
    if |fs| > 0 {
      LegacyEntriesKeys(fs[1..], agent);
      KeysAppend([LegacyEntry(fs[0], agent).value], LegacyEntries(fs[1..], agent).value);
    }
  }

  /** A walked dict has the keys of its input, each once, in the order they
      first appear. */
  lemma LegacyProcessKeys(data: Json, agent: Agent)
    requires LegacyProcess(data, agent).Some?
    ensures data.JObj? && LegacyProcess(data, agent).value.JObj?
    ensures Keys(LegacyProcess(data, agent).value.fields) == Dedup(Keys(data.fields))
  {
    var es := LegacyEntries(data.fields, agent).value;
    LegacyEntriesKeys(data.fields, agent);
    FromEntriesKeys(es);
  }

  /** Every dict the older walk returns is shaped as described. */
  lemma {:induction false} LegacyProcessShaped(data: Json, agent: Agent)
    requires LegacyProcess(data, agent).Some?
    ensures LegacyProcess(data, agent).value.JObj? && Shaped(LegacyProcess(data, agent).value.fields)
  {
    var es := LegacyEntries(data.fields, agent).value;
    LegacyEntriesShaped(data.fields, agent);
    FromEntriesEntries(es);
    assert forall i :: 0 <= i < |FromEntries(es)| ==> FromEntries(es)[i] in es;
  }

  lemma {:induction false} LegacyEntriesShaped(fs: Fields, agent: Agent)
    requires LegacyEntries(fs, agent).Some?
    ensures forall e :: e in LegacyEntries(fs, agent).value ==> NodeShaped(e.value)
  {
    if |fs| > 0 {
      LegacyEntryShaped(fs[0], agent);
      LegacyEntriesShaped(fs[1..], agent);
    }
  }

  lemma {:induction false} LegacyEntryShaped(e: Entry<Json>, agent: Agent)
    requires LegacyEntry(e, agent).Some?
    ensures NodeShaped(LegacyEntry(e, agent).value.value)
  {
    if e.value.JObj? {
      var vs := e.value.fields;
      if Find(vs, "text").Some? {
        var s := Find(vs, "subtopics");
        if s.Some? {
          LegacyProcessShaped(vs[s.value].value, agent);
        }
      } else {
        FindGet(vs, "text");
        LegacyProcessShaped(e.value, agent);
        LegacyProcessKeys(e.value, agent);
        DedupSameElements(Keys(vs));
      }
    }
  }

  /** On a dict without repeated keys the walk keeps every entry in its
      place, and copies every entry whose value is not a dict. */
  lemma LegacyProcessKeepsEntries(fs: Fields, agent: Agent)
    requires UniqueKeys(fs) && LegacyProcess(JObj(fs), agent).Some?
    ensures var out := LegacyProcess(JObj(fs), agent).value;
      out.JObj? && |out.fields| == |fs| &&
      forall i :: 0 <= i < |fs| ==> out.fields[i].key == fs[i].key && (!fs[i].value.JObj? ==> out.fields[i] == fs[i])
  {
    var es := LegacyEntries(fs, agent).value;
    LegacyEntriesKeys(fs, agent);
    LegacyEntriesCopy(fs, agent);
    FromEntriesOfUnique(es);
  }

  lemma {:induction false} LegacyEntriesCopy(fs: Fields, agent: Agent)
    requires LegacyEntries(fs, agent).Some?
    ensures |LegacyEntries(fs, agent).value| == |fs|
    ensures forall i :: 0 <= i < |fs| && !fs[i].value.JObj? ==> LegacyEntries(fs, agent).value[i] == fs[i]
  {
    if |fs| > 0 {
      LegacyEntriesCopy(fs[1..], agent);
    }
  }

  /** Each assignment of the loop comes from the entry in the same place. */
  lemma {:induction false} LegacyEntriesAt(fs: Fields, agent: Agent)
    requires LegacyEntries(fs, agent).Some?
    ensures |LegacyEntries(fs, agent).value| == |fs|
    ensures forall i :: 0 <= i < |fs| ==>
      LegacyEntry(fs[i], agent).Some? && LegacyEntries(fs, agent).value[i] == LegacyEntry(fs[i], agent).value
  {
    if |fs| > 0 {
      LegacyEntriesAt(fs[1..], agent);
    }
  }

  /** The `subtopics` of a rebuilt node: the walked input value, or `{}`
      when the input has none. */
  function WalkedSubtopics(vs: Fields, agent: Agent): Option<Json>
  {
    var s := Get(vs, "subtopics");
    if s.Some? then LegacyProcess(s.value, agent) else Some(EmptyObject)
  }

  /** On a dict without repeated keys, the output entry in each place is the
      assignment made for the input entry in that place. */
  lemma LegacyProcessAt(fs: Fields, agent: Agent, i: nat)
    requires UniqueKeys(fs) && LegacyProcess(JObj(fs), agent).Some? && i < |fs|
    ensures var out := LegacyProcess(JObj(fs), agent).value;
      out.JObj? && |out.fields| == |fs|
      && LegacyEntry(fs[i], agent).Some? && out.fields[i] == LegacyEntry(fs[i], agent).value
  {
    var es := LegacyEntries(fs, agent).value;
    LegacyEntriesAt(fs, agent);
    LegacyEntriesKeys(fs, agent);
    FromEntriesOfUnique(es);
  }

  /** The assignment for a dict-valued entry. A dict with `text` `t` becomes
      the node of `t`, its two `LegacyTranslate` strings in the order
      returned, and its walked `subtopics`; any other dict is walked in
      turn. */
  lemma LegacyEntryNode(e: Entry<Json>, agent: Agent)
    requires LegacyEntry(e, agent).Some? && e.value.JObj?
    ensures var vs := e.value.fields;
      match Get(vs, "text")
      case Some(t) =>
        WalkedSubtopics(vs, agent).Some?
        && LegacyEntry(e, agent).value
           == Entry(e.key, JObj([Entry("text", t),
                                 Entry("hindi_text", JStr(LegacyTranslate(t, agent).0)),
                                 Entry("guj_text", JStr(LegacyTranslate(t, agent).1)),
                                 Entry("subtopics", WalkedSubtopics(vs, agent).value)]))
      case None =>
        LegacyProcess(e.value, agent).Some? && LegacyEntry(e, agent).value == Entry(e.key, LegacyProcess(e.value, agent).value)
  {
    FindGet(e.value.fields, "text");
    FindGet(e.value.fields, "subtopics");
  }

  /** What the walk stores for a dict-valued entry of a dict without
      repeated keys, in the entry's own place. */
  lemma LegacyProcessNode(fs: Fields, agent: Agent, i: nat)
    requires UniqueKeys(fs) && LegacyProcess(JObj(fs), agent).Some?
    requires i < |fs| && fs[i].value.JObj?
    ensures var out := LegacyProcess(JObj(fs), agent).value;
      var vs := fs[i].value.fields;
      out.JObj? && |out.fields| == |fs| &&
      match Get(vs, "text")
      case Some(t) =>
        WalkedSubtopics(vs, agent).Some?
        && out.fields[i] == Entry(fs[i].key, JObj([Entry("text", t),
                                                   Entry("hindi_text", JStr(LegacyTranslate(t, agent).0)),
                                                   Entry("guj_text", JStr(LegacyTranslate(t, agent).1)),
                                                   Entry("subtopics", WalkedSubtopics(vs, agent).value)]))
      case None =>
        LegacyProcess(fs[i].value, agent).Some? && out.fields[i] == Entry(fs[i].key, LegacyProcess(fs[i].value, agent).value)
  {
    LegacyProcessAt(fs, agent, i);
    LegacyEntryNode(fs[i], agent);
  }

  // ---------------------------------------------------------------------
  // The swapped languages

  /** A topic whose text the agent translates comes out with the Gujarati
      translation under `hindi_text` and the Hindi one under `guj_text`. */
  lemma LegacySwapsLanguages(key: string, t: string, agent: Agent)
    requires Strip(t) != "" && agent(t).Reply?
    ensures LegacyProcess(JObj([Entry(key, JObj([Entry("text", JStr(t))]))]), agent)
         == Some(JObj([Entry(key, JObj([Entry("text", JStr(t)),
                                        Entry("hindi_text", JStr(agent(t).gujarati)),
                                        Entry("guj_text", JStr(agent(t).hindi)),
                                        Entry("subtopics", EmptyObject)]))]))
  {
    var vs := [Entry("text", JStr(t))];
    var node := JObj([Entry("text", JStr(t)), Entry("hindi_text", JStr(agent(t).gujarati)),
                      Entry("guj_text", JStr(agent(t).hindi)), Entry("subtopics", EmptyObject)]);
    var fs := [Entry(key, JObj(vs))];
    assert Find(vs, "text") == Some(0);
    assert Find(vs[1..], "subtopics") == None;
    assert LegacyEntry(fs[0], agent) == Some(Entry(key, node));
    assert LegacyEntries(fs[1..], agent) == Some([]);
    assert [Entry(key, node)] + [] == [Entry(key, node)];
    assert LegacyEntries(fs, agent) == Some([Entry(key, node)]);
    FromEntriesOfUnique([Entry(key, node)]);
  }

  /** An agent that answers "H" in Hindi and "G" in Gujarati: the older walk
      stores "G" as the Hindi text, where the newer walk stores "H". */
  lemma LegacyHindiIsGujarati()
    ensures var agent: Agent := t => Reply("H", "G");
      var input := [Entry("text", JStr("brick"))];
      LegacyProcess(JObj([Entry("Bricks", JObj(input))]), agent)
        == Some(JObj([Entry("Bricks", JObj([Entry("text", JStr("brick")), Entry("hindi_text", JStr("G")),
                                            Entry("guj_text", JStr("H")), Entry("subtopics", EmptyObject)]))]))
      && Get(Annotate(JObj(input), agent).fields, "hindi_text") == Some(JStr("H"))
  {
    var agent: Agent := t => Reply("H", "G");
    var input := [Entry("text", JStr("brick"))];
    assert Strip("brick") != "" by {
      StripEmptyIffBlank("brick");
      assert !IsSpace("brick"[0]);
    }
    LegacySwapsLanguages("Bricks", "brick", agent);
    assert NoTranslationKeys(input);
    AnnotateTranslates(input, agent);
    assert Get(input, "text") == Some(JStr("brick"));
  }
}
