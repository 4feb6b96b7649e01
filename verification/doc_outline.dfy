/** A declarative description of what the extractor's scan produces, and the
    proof that the scan produces exactly that.

    The non-blank paragraphs are cut into sections, one per Heading 2
    paragraph. Every section whose heading passes the allow-list becomes a
    topic; a topic's body is cut again at its Heading 3 paragraphs. The topic
    keeps its own body lines only when it has no subtopic; each subtopic keeps
    the body lines up to the next Heading 3. Repeated names are assigned again,
    so the last section of a name wins while the name keeps its first place. */
module DocOutline {
  import opened Wrappers
  import opened Text
  import opened OrderedMap
  import opened DocExtractor

  /** The non-blank paragraphs, in order. */
  function Visible(ps: seq<Paragraph>): seq<Paragraph>
  {
    if |ps| == 0 then []
    else Visible(ps[..|ps| - 1]) + (if IsVisible(ps[|ps| - 1]) then [ps[|ps| - 1]] else [])
  }

  /** A paragraph whose text goes into the buffer when a topic is active. */
  predicate IsBodyLine(p: Paragraph)
  {
    p.style != TopicStyle && p.style != SubtopicStyle && p.style !in SkippedStyles
  }

  /** A heading paragraph and the paragraphs up to the next heading. */
  datatype Section = Section(heading: Paragraph, body: seq<Paragraph>)

  /** A sequence of paragraphs cut at its headings of one style: the
      paragraphs before the first heading, then one section per heading. */
  datatype Cut = Cut(lead: seq<Paragraph>, sections: seq<Section>)

  function Name(s: Section): string
  {
    Strip(s.heading.text)
  }

  /** The paragraphs of `ss`, headings included, in order. */
  function Flatten(ss: seq<Section>): seq<Paragraph>
  {
    if |ss| == 0 then [] else Flatten(ss[..|ss| - 1]) + [ss[|ss| - 1].heading] + ss[|ss| - 1].body
  }

  /** `ss` with `p` added to the body of its last section. */
  function Grow(ss: seq<Section>, p: Paragraph): seq<Section>
  {
    if |ss| == 0 then []
    else ss[..|ss| - 1] + [Section(ss[|ss| - 1].heading, ss[|ss| - 1].body + [p])]
  }

  /** The cut of `ps + [p]` from the cut of `ps`. */
  function CutStep(c: Cut, p: Paragraph, level: string): Cut
  {
    if p.style == level then Cut(c.lead, c.sections + [Section(p, [])])
    else if |c.sections| == 0 then Cut(c.lead + [p], [])
    else Cut(c.lead, Grow(c.sections, p))
  }

  /** `ps` cut before every paragraph of style `level`. */
  function CutAt(ps: seq<Paragraph>, level: string): Cut
  {
    if |ps| == 0 then Cut([], []) else CutStep(CutAt(ps[..|ps| - 1], level), ps[|ps| - 1], level)
  }

  lemma CutStepFlatten(c: Cut, p: Paragraph, level: string)
    ensures CutStep(c, p, level).lead + Flatten(CutStep(c, p, level).sections) == c.lead + Flatten(c.sections) + [p]
  {
    var ss := c.sections;
    if p.style == level {
      assert (ss + [Section(p, [])])[..|ss|] == ss;
    } else if |ss| > 0 {
      var n := |ss|;
      var g := Grow(ss, p);
      assert g[..n - 1] == ss[..n - 1];
      assert Flatten(ss) == Flatten(ss[..n - 1]) + [ss[n - 1].heading] + ss[n - 1].body;
    }
  }

  /** Putting the pieces of a cut back together gives the paragraphs. */
  lemma {:induction false} CutAtFlatten(ps: seq<Paragraph>, level: string)
    ensures CutAt(ps, level).lead + Flatten(CutAt(ps, level).sections) == ps
  {
    if |ps| > 0 {
      var init := ps[..|ps| - 1];
      var c := CutAt(ps, level);
      calc {
        c.lead + Flatten(c.sections);
        { CutStepFlatten(CutAt(init, level), ps[|ps| - 1], level); }
        CutAt(init, level).lead + Flatten(CutAt(init, level).sections) + [ps[|ps| - 1]];
        { CutAtFlatten(init, level); }
        init + [ps[|ps| - 1]];
        ps;
      }
    }
  }

  /** The headings of a cut are exactly the paragraphs of style `level`: no
      other piece holds one. */
  lemma {:induction false} CutAtHeadings(ps: seq<Paragraph>, level: string)
    ensures forall q :: q in CutAt(ps, level).lead ==> q.style != level
    ensures forall s :: s in CutAt(ps, level).sections ==> s.heading.style == level
    ensures forall s, q :: s in CutAt(ps, level).sections && q in s.body ==> q.style != level
  {
    if |ps| > 0 {
      var init := ps[..|ps| - 1];
      var p := ps[|ps| - 1];
      var c := CutAt(init, level);
      CutAtHeadings(init, level);
      if p.style != level && |c.sections| > 0 {
        var n := |c.sections|;
        var g := Grow(c.sections, p);
        assert forall s :: s in g ==> s in c.sections[..n - 1] || s == g[n - 1];
      }
    }
  }

  /** The stripped texts of the body-line paragraphs of `ps`. */
  function BodyLines(ps: seq<Paragraph>): seq<string>
  {
    if |ps| == 0 then []
    else BodyLines(ps[..|ps| - 1]) + (if IsBodyLine(ps[|ps| - 1]) then [Strip(ps[|ps| - 1].text)] else [])
  }

  /** Subtopic name and text for each subtopic section, in order. */
  function Subentries(ss: seq<Section>): seq<Entry<string>>
  {
    if |ss| == 0 then []
    else Subentries(ss[..|ss| - 1]) + [Entry(Name(ss[|ss| - 1]), Content(BodyLines(ss[|ss| - 1].body)))]
  }

  /** The topic made from the paragraphs after its heading. */
  function TopicOf(body: seq<Paragraph>): Topic
  {
    var c := CutAt(body, SubtopicStyle);
    Topic(if |c.sections| == 0 then Content(BodyLines(c.lead)) else "", FromEntries(Subentries(c.sections)))
  }

  /** Topic name and topic for each admitted topic section, in order. */
  function TopicEntries(ss: seq<Section>, allow: Option<seq<string>>): seq<Entry<Topic>>
  {
    if |ss| == 0 then []
    else
      var s := ss[|ss| - 1];
      TopicEntries(ss[..|ss| - 1], allow) + (if Admits(allow, Name(s)) then [Entry(Name(s), TopicOf(s.body))] else [])
  }

  /** The topic sections of the non-blank paragraphs `vis`. */
  function Sections(vis: seq<Paragraph>): seq<Section>
  {
    CutAt(vis, TopicStyle).sections
  }

  /** The outline of the paragraphs `ps`, described section by section. */
  function Reference(ps: seq<Paragraph>, allow: Option<seq<string>>): Outline
  {
    FromEntries(TopicEntries(Sections(Visible(ps)), allow))
  }

  // ---------------------------------------------------------------------
  // The scan state in terms of the sections read so far.

  /** The topic as it stands in the structure while its section is still
      being read: no text yet, and every subtopic but the last one saved. */
  function Pending(sub: Cut): Topic
  {
    var n := |sub.sections|;
    Topic("", FromEntries(Subentries(if n == 0 then [] else sub.sections[..n - 1])))
  }

  function ActiveSubtopic(sub: Cut): Option<string>
  {
    if |sub.sections| == 0 then None else Some(Name(sub.sections[|sub.sections| - 1]))
  }

  function Buffered(sub: Cut): seq<string>
  {
    if |sub.sections| == 0 then BodyLines(sub.lead) else BodyLines(sub.sections[|sub.sections| - 1].body)
  }

  /** The scan state once the topic sections `secs` have been read. */
  function State(secs: seq<Section>, allow: Option<seq<string>>): Scan
  {
    if |secs| == 0 then Initial
    else
      var s := secs[|secs| - 1];
      var done := FromEntries(TopicEntries(secs[..|secs| - 1], allow));
      if Admits(allow, Name(s)) then
        State1(done, Name(s), CutAt(s.body, SubtopicStyle))
      else Scan(done, None, None, [])
  }

  /** The scan state inside the admitted topic `name`, whose body so far is
      cut at its subtopics as `sub`, after the topics `done`. */
  function State1(done: Outline, name: string, sub: Cut): Scan
  {
    Scan(Put(done, name, Pending(sub)), Some(name), ActiveSubtopic(sub), Buffered(sub))
  }

  // ---------------------------------------------------------------------
  // One more paragraph.

  lemma VisibleSnoc(ps: seq<Paragraph>, p: Paragraph)
    ensures Visible(ps + [p]) == Visible(ps) + (if IsVisible(p) then [p] else [])
  {
    assert (ps + [p])[..|ps|] == ps;
  }

  lemma CutAtSnoc(ps: seq<Paragraph>, p: Paragraph, level: string)
    ensures CutAt(ps + [p], level) == CutStep(CutAt(ps, level), p, level)
  {
    assert (ps + [p])[..|ps|] == ps;
  }

  lemma BodyLinesSnoc(ps: seq<Paragraph>, p: Paragraph)
    ensures BodyLines(ps + [p]) == BodyLines(ps) + (if IsBodyLine(p) then [Strip(p.text)] else [])
  {
    assert (ps + [p])[..|ps|] == ps;
  }

  lemma SubentriesSnoc(ss: seq<Section>, s: Section)
    ensures Subentries(ss + [s]) == Subentries(ss) + [Entry(Name(s), Content(BodyLines(s.body)))]
  {
    assert (ss + [s])[..|ss|] == ss;
  }

  /** Saving the last subtopic of a pending topic completes its subtopics. */
  lemma SaveLastSubtopic(sub: Cut)
    requires |sub.sections| > 0
    ensures Put(Pending(sub).subtopics, ActiveSubtopic(sub).value, Content(Buffered(sub)))
         == FromEntries(Subentries(sub.sections))
  {
    var m := |sub.sections|;
    var last := sub.sections[m - 1];
    assert sub.sections == sub.sections[..m - 1] + [last];
    SubentriesSnoc(sub.sections[..m - 1], last);
    FromEntriesSnoc(Subentries(sub.sections[..m - 1]), Entry(Name(last), Content(BodyLines(last.body))));
  }

  /** Flushing an admitted topic still being read completes it. */
  lemma FinishTopic(done: Outline, name: string, body: seq<Paragraph>)
    ensures Finish(State1(done, name, CutAt(body, SubtopicStyle))) == Put(done, name, TopicOf(body))
  {
    var sub := CutAt(body, SubtopicStyle);
    var t := Pending(sub);
    assert Get(Put(done, name, t), name) == Some(t);
    if |sub.sections| == 0 {
      PutPut(done, name, t, t.(text := Content(Buffered(sub))));
    } else {
      SaveLastSubtopic(sub);
      PutPut(done, name, t, t.(subtopics := Put(t.subtopics, ActiveSubtopic(sub).value, Content(Buffered(sub)))));
    }
  }

  /** The end-of-input flush turns the state into the outline of the sections. */
  lemma FinishState(secs: seq<Section>, allow: Option<seq<string>>)
    ensures Finish(State(secs, allow)) == FromEntries(TopicEntries(secs, allow))
  {
    if |secs| > 0 {
      var n := |secs|;
      var s := secs[n - 1];
      var init := TopicEntries(secs[..n - 1], allow);
      var done := FromEntries(init);
      if Admits(allow, Name(s)) {
        assert TopicEntries(secs, allow) == init + [Entry(Name(s), TopicOf(s.body))];
        FromEntriesSnoc(TopicEntries(secs[..n - 1], allow), Entry(Name(s), TopicOf(s.body)));
        FinishTopic(done, Name(s), s.body);
      } else {
        assert TopicEntries(secs, allow) == init;
      }
    }
  }

  /** A Heading 2 paragraph closes the section being read and opens one. */
  lemma StepTopicHeading(secs: seq<Section>, p: Paragraph, allow: Option<seq<string>>)
    requires IsVisible(p) && p.style == TopicStyle
    ensures Step(State(secs, allow), p, allow) == State(secs + [Section(p, [])], allow)
  {
    FinishState(secs, allow);
    assert (secs + [Section(p, [])])[..|secs|] == secs;
    assert CutAt([], SubtopicStyle) == Cut([], []);
  }

  /** Outside an admitted topic, other paragraphs change nothing. */
  lemma StepIdle(secs: seq<Section>, p: Paragraph, allow: Option<seq<string>>)
    requires IsVisible(p) && p.style != TopicStyle
    requires State(secs, allow).topic.None?
    ensures Step(State(secs, allow), p, allow) == State(Grow(secs, p), allow)
  {
    if |secs| > 0 {
      var n := |secs|;
      assert Grow(secs, p)[..n - 1] == secs[..n - 1];
    }
  }

  /** What the scan does with a Heading 3 paragraph inside a topic that is
      in the structure. */
  lemma StepOpensSubtopic(st: Scan, p: Paragraph, allow: Option<seq<string>>)
    requires IsVisible(p) && p.style == SubtopicStyle
    requires st.topic.Some? && HasKey(st.outline, st.topic.value)
    ensures Step(st, p, allow)
         == Scan(if st.subtopic.Some? then SaveContent(st.outline, st.topic.value, st.subtopic, st.lines) else st.outline,
                 st.topic, Some(Strip(p.text)), [])
  {
  }

  /** Opening a subtopic saves the one being read into the pending topic. */
  lemma SaveBeforeSubtopic(done: Outline, name: string, sub: Cut, h: Paragraph)
    ensures (if ActiveSubtopic(sub).Some? then SaveContent(Put(done, name, Pending(sub)), name, ActiveSubtopic(sub), Buffered(sub))
             else Put(done, name, Pending(sub)))
         == Put(done, name, Pending(Cut(sub.lead, sub.sections + [Section(h, [])])))
  {
    var m := |sub.sections|;
    var sub' := Cut(sub.lead, sub.sections + [Section(h, [])]);
    assert sub'.sections[..m] == sub.sections;
    var t := Pending(sub);
    if m > 0 {
      SaveLastSubtopic(sub);
      var t' := t.(subtopics := Put(t.subtopics, ActiveSubtopic(sub).value, Content(Buffered(sub))));
      assert Pending(sub') == t';
      assert Get(Put(done, name, t), name) == Some(t);
      PutPut(done, name, t, t');
    } else {
      assert Pending(sub') == t;
    }
  }

  /** Inside an admitted topic, a Heading 3 paragraph saves the subtopic being
      read, if any, and opens a new one. */
  lemma StepSubtopicHeading(done: Outline, name: string, body: seq<Paragraph>, p: Paragraph, allow: Option<seq<string>>)
    requires IsVisible(p) && p.style == SubtopicStyle
    ensures Step(State1(done, name, CutAt(body, SubtopicStyle)), p, allow)
         == State1(done, name, CutAt(body + [p], SubtopicStyle))
  {
    var sub := CutAt(body, SubtopicStyle);
    CutAtSnoc(body, p, SubtopicStyle);
    var sub' := Cut(sub.lead, sub.sections + [Section(p, [])]);
    assert CutAt(body + [p], SubtopicStyle) == sub';
    assert ActiveSubtopic(sub') == Some(Strip(p.text));
    assert Buffered(sub') == [];
    assert HasKey(Put(done, name, Pending(sub)), name);
    StepOpensSubtopic(State1(done, name, sub), p, allow);
    SaveBeforeSubtopic(done, name, sub, p);
  }

  /** Inside an admitted topic, any other paragraph is buffered unless its
      style is skipped. */
  lemma StepBody(done: Outline, name: string, body: seq<Paragraph>, p: Paragraph, allow: Option<seq<string>>)
    requires IsVisible(p) && p.style != TopicStyle && p.style != SubtopicStyle
    ensures Step(State1(done, name, CutAt(body, SubtopicStyle)), p, allow)
         == State1(done, name, CutAt(body + [p], SubtopicStyle))
  {
    var sub := CutAt(body, SubtopicStyle);
    CutAtSnoc(body, p, SubtopicStyle);
    var m := |sub.sections|;
    if m == 0 {
      BodyLinesSnoc(sub.lead, p);
    } else {
      var sub' := Cut(sub.lead, Grow(sub.sections, p));
      assert sub'.sections[..m - 1] == sub.sections[..m - 1];
      BodyLinesSnoc(sub.sections[m - 1].body, p);
    }
  }

  /** Inside an admitted topic, a paragraph other than a Heading 2 moves the
      state along the body of the topic. */
  lemma StepInside(secs: seq<Section>, p: Paragraph, allow: Option<seq<string>>)
    requires IsVisible(p) && p.style != TopicStyle
    requires State(secs, allow).topic.Some?
    ensures Step(State(secs, allow), p, allow) == State(Grow(secs, p), allow)
  {
    var n := |secs|;
    var s := secs[n - 1];
    var g := Grow(secs, p);
    assert g[..n - 1] == secs[..n - 1];
    var done := FromEntries(TopicEntries(secs[..n - 1], allow));
    assert State(secs, allow) == State1(done, Name(s), CutAt(s.body, SubtopicStyle));
    assert State(g, allow) == State1(done, Name(s), CutAt(s.body + [p], SubtopicStyle));
    if p.style == SubtopicStyle {
      StepSubtopicHeading(done, Name(s), s.body, p, allow);
    } else {
      StepBody(done, Name(s), s.body, p, allow);
    }
  }

  /** Reading one more paragraph moves the state along the sections. */
  lemma StepState(vis: seq<Paragraph>, p: Paragraph, allow: Option<seq<string>>)
    requires IsVisible(p)
    ensures Step(State(Sections(vis), allow), p, allow) == State(Sections(vis + [p]), allow)
  {
    var secs := Sections(vis);
    CutAtSnoc(vis, p, TopicStyle);
    if p.style == TopicStyle {
      StepTopicHeading(secs, p, allow);
    } else if State(secs, allow).topic.None? {
      StepIdle(secs, p, allow);
    } else {
      StepInside(secs, p, allow);
    }
  }

  /** After any prefix of the document, the scan is in the state its sections
      describe. */
  lemma {:induction false} RunIsState(ps: seq<Paragraph>, allow: Option<seq<string>>)
    ensures Run(ps, allow) == State(Sections(Visible(ps)), allow)
  {
    if |ps| > 0 {
      var init := ps[..|ps| - 1];
      var p := ps[|ps| - 1];
      RunIsState(init, allow);
      assert Run(ps, allow) == Step(Run(init, allow), p, allow);
      assert Visible(ps) == Visible(init) + (if IsVisible(p) then [p] else []);
      if IsVisible(p) {
        StepState(Visible(init), p, allow);
      } else {
        assert Visible(ps) == Visible(init);
      }
    }
  }

  /** The scan computes the reference outline. */
  lemma ExtractIsReference(ps: seq<Paragraph>, filter: Option<seq<string>>)
    ensures Extract(ps, filter) == Reference(ps, AllowList(filter))
  {
    RunIsState(ps, AllowList(filter));
    FinishState(Sections(Visible(ps)), AllowList(filter));
  }
}
