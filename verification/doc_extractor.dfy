/** The paragraph scan of `DocxTopicExtractor` (src/doc_extractor.py): a
    Heading 2 paragraph opens a topic, a Heading 3 paragraph opens a subtopic
    of the active topic, and other paragraphs are buffered as body lines until
    the next flush. The document arrives as its sequence of paragraphs. */
module DocExtractor {
  import opened Wrappers
  import opened Text
  import opened OrderedMap
  import opened JsonValue

  /** A paragraph of the document: its raw text and the name of its style. */
  datatype Paragraph = Paragraph(text: string, style: string)

  /** A topic of the result: `{'text': text, 'subtopics': {name: {'text': t}}}`.
      The subtopic dicts hold nothing but their text, so they are kept as the
      text itself. */
  datatype Topic = Topic(text: string, subtopics: seq<Entry<string>>)

  /** The result: topic name to topic, in the order the names first appeared. */
  type Outline = seq<Entry<Topic>>

  const TopicStyle: string := "Heading 2"
  const SubtopicStyle: string := "Heading 3"

  /** Styles whose paragraphs are never buffered as body text. */
  const SkippedStyles: seq<string> := ["TOC 1", "TOC 2", "TOC 3", "Header", "Footer"]

  /** The state of the loop: the structure built so far, `current_topic`,
      `current_subtopic` and `current_text`. */
  datatype Scan = Scan(outline: Outline, topic: Option<string>, subtopic: Option<string>, lines: seq<string>)

  const Initial: Scan := Scan([], None, None, [])

  /** A paragraph the scan looks at: its text is not blank once stripped. */
  predicate IsVisible(p: Paragraph)
  {
    Strip(p.text) != ""
  }

  /** What a flush stores: the buffered lines joined by newlines, stripped. */
  function Content(lines: seq<string>): string
  {
    Strip(Join(lines, "\n"))
  }

  /** `_save_content`: the buffered lines overwrite the active subtopic's text,
      or the topic's own text when no subtopic is active. A topic missing from
      the structure raises a `KeyError` that the method logs and swallows. */
  function SaveContent(outline: Outline, topic: string, subtopic: Option<string>, lines: seq<string>): Outline
  {
    match Get(outline, topic)
    case None => outline
    case Some(node) =>
      if subtopic.Some? then
        Put(outline, topic, node.(subtopics := Put(node.subtopics, subtopic.value, Content(lines))))
      else
        Put(outline, topic, node.(text := Content(lines)))
  }

  /** The flush done before a new topic and at the end of the input. */
  function Finish(st: Scan): Outline
  {
    if st.topic.Some? then SaveContent(st.outline, st.topic.value, st.subtopic, st.lines) else st.outline
  }

  /** `topic_filter_lower`: the lower-cased allow-list, or nothing when the
      filter is absent or empty. */
  function AllowList(filter: Option<seq<string>>): Option<seq<string>>
  {
    if filter.Some? && |filter.value| > 0 then
      Some(seq(|filter.value|, i requires 0 <= i < |filter.value| => Lower(filter.value[i])))
    else None
  }

  /** A topic heading (already stripped) passes the allow-list. */
  predicate Admits(allow: Option<seq<string>>, name: string)
  {
    allow.None? || Lower(name) in allow.value
  }

  /** One iteration of the loop over the paragraphs. */
  function Step(st: Scan, p: Paragraph, allow: Option<seq<string>>): Scan
  {
    var t := Strip(p.text);
    if t == "" then st
    else if p.style == TopicStyle then
      var saved := Finish(st);
      if Admits(allow, t) then Scan(Put(saved, t, Topic("", [])), Some(t), None, [])
      else Scan(saved, None, None, [])
    else if p.style == SubtopicStyle && st.topic.Some? then
      if st.subtopic.Some? && !HasKey(st.outline, st.topic.value) then
        st  // the KeyError aborts this paragraph only
      else
        var outline :=
          if st.subtopic.Some? then SaveContent(st.outline, st.topic.value, st.subtopic, st.lines)
          else st.outline;
        Scan(outline, st.topic, Some(t), [])
    else if st.topic.Some? && p.style !in SkippedStyles then
      st.(lines := st.lines + [t])
    else st
  }

  /** The loop after the paragraphs `ps`. */
  function Run(ps: seq<Paragraph>, allow: Option<seq<string>>): Scan
  {
    if |ps| == 0 then Initial else Step(Run(ps[..|ps| - 1], allow), ps[|ps| - 1], allow)
  }

  /** `extract_topics_and_subtopics` on a document made of the paragraphs
      `ps`, with the optional topic allow-list `filter`. */
  function Extract(ps: seq<Paragraph>, filter: Option<seq<string>>): Outline
  {
    Finish(Run(ps, AllowList(filter)))
  }

  /** The result as the JSON the rest of the pipeline receives. */
  function OutlineJson(outline: Outline): Json
  {
    JObj(seq(|outline|, i requires 0 <= i < |outline| =>
      Entry(outline[i].key, TopicJson(outline[i].value))))
  }

  function TopicJson(t: Topic): Json
  {
    JObj([Entry("text", JStr(t.text)),
          Entry("subtopics", JObj(seq(|t.subtopics|, i requires 0 <= i < |t.subtopics| =>
            Entry(t.subtopics[i].key, JObj([Entry("text", JStr(t.subtopics[i].value))])))))])
  }

  // ---------------------------------------------------------------------
  // analyze_document_structure

  /** The analysis: heading counts per style, the topic headings in order, and
      the indented preview lines. */
  datatype Analysis = Analysis(headingCounts: seq<Entry<nat>>, topics: seq<string>, preview: seq<string>)

  /** The analysis so far and the last topic heading seen. */
  datatype Survey = Survey(analysis: Analysis, current: Option<string>)

  /** A paragraph the analysis counts: a non-blank one whose style name starts
      with "Heading". */
  predicate IsCountedHeading(p: Paragraph)
  {
    StartsWith(p.style, "Heading") && IsVisible(p)
  }

  /** `heading_counts[style] = heading_counts.get(style, 0) + 1`. */
  function CountStyle(counts: seq<Entry<nat>>, style: string): seq<Entry<nat>>
  {
    Put(counts, style, Get(counts, style).GetOr(0) + 1)
  }

  function SurveyStep(sv: Survey, p: Paragraph): Survey
  {
    if !IsCountedHeading(p) then sv
    else
      var t := Strip(p.text);
      var a := sv.analysis;
      var counts := CountStyle(a.headingCounts, p.style);
      if p.style == TopicStyle then
        Survey(Analysis(counts, a.topics + [t], a.preview + [" " + t]), Some(t))
      else if p.style == SubtopicStyle && sv.current.Some? then
        Survey(Analysis(counts, a.topics, a.preview + ["   " + t]), sv.current)
      else
        Survey(a.(headingCounts := counts), sv.current)
  }

  function SurveyRun(ps: seq<Paragraph>): Survey
  {
    if |ps| == 0 then Survey(Analysis([], [], []), None)
    else SurveyStep(SurveyRun(ps[..|ps| - 1]), ps[|ps| - 1])
  }

  /** `analyze_document_structure` on the paragraphs `ps`. */
  function Analyze(ps: seq<Paragraph>): Analysis
  {
    SurveyRun(ps).analysis
  }
}
