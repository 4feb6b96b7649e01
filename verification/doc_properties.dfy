/** What the extracted outline and the structure analysis promise about a
    document, derived from the section-by-section description. */
module DocProperties {
  import opened Wrappers
  import opened Text
  import opened OrderedMap
  import opened JsonValue
  import opened DocExtractor
  import opened DocOutline

  /** The stripped texts of the non-blank Heading 2 paragraphs of `ps` that
      pass the allow-list, in document order, repetitions included. */
  function TopicHeadings(ps: seq<Paragraph>, allow: Option<seq<string>>): seq<string>
  {
    if |ps| == 0 then []
    else
      var p := ps[|ps| - 1];
      TopicHeadings(ps[..|ps| - 1], allow)
        + (if IsVisible(p) && p.style == TopicStyle && Admits(allow, Strip(p.text)) then [Strip(p.text)] else [])
  }

  /** The names of the sections of `ss` that pass the allow-list. */
  function AdmittedNames(ss: seq<Section>, allow: Option<seq<string>>): seq<string>
  {
    if |ss| == 0 then []
    else
      var s := ss[|ss| - 1];
      AdmittedNames(ss[..|ss| - 1], allow) + (if Admits(allow, Name(s)) then [Name(s)] else [])
  }

  lemma {:induction false} TopicEntriesKeys(ss: seq<Section>, allow: Option<seq<string>>)
    ensures Keys(TopicEntries(ss, allow)) == AdmittedNames(ss, allow)
  {
    if |ss| > 0 {
      var s := ss[|ss| - 1];
      TopicEntriesKeys(ss[..|ss| - 1], allow);
      KeysAppend(TopicEntries(ss[..|ss| - 1], allow),
                 if Admits(allow, Name(s)) then [Entry(Name(s), TopicOf(s.body))] else []);
    }
  }

  lemma GrowKeepsNames(ss: seq<Section>, p: Paragraph, allow: Option<seq<string>>)
    ensures AdmittedNames(Grow(ss, p), allow) == AdmittedNames(ss, allow)
  {
    if |ss| > 0 {
      assert Grow(ss, p)[..|ss| - 1] == ss[..|ss| - 1];
    }
  }

  lemma {:induction false} SectionNames(ps: seq<Paragraph>, allow: Option<seq<string>>)
    ensures AdmittedNames(Sections(Visible(ps)), allow) == TopicHeadings(ps, allow)
  {
    if |ps| > 0 {
      var init := ps[..|ps| - 1];
      var p := ps[|ps| - 1];
      SectionNames(init, allow);
      var ss := Sections(Visible(init));
      if !IsVisible(p) {
        assert Visible(ps) == Visible(init);
        assert TopicHeadings(ps, allow) == TopicHeadings(init, allow);
      } else {
        assert Visible(ps) == Visible(init) + [p];
        CutAtSnoc(Visible(init), p, TopicStyle);
        if p.style == TopicStyle {
          var s := Section(p, []);
          assert Sections(Visible(ps)) == ss + [s];
          assert (ss + [s])[..|ss|] == ss;
          assert AdmittedNames(ss + [s], allow) == AdmittedNames(ss, allow) + (if Admits(allow, Name(s)) then [Name(s)] else []);
        } else {
          assert Sections(Visible(ps)) == Grow(ss, p);
          GrowKeepsNames(ss, p, allow);
          assert TopicHeadings(ps, allow) == TopicHeadings(init, allow);
        }
      }
    }
  }

  /** The topics of the outline are the admitted Heading 2 texts, each once,
      in the order they first appear. */
  lemma ExtractKeys(ps: seq<Paragraph>, filter: Option<seq<string>>)
    ensures Keys(Extract(ps, filter)) == Dedup(TopicHeadings(ps, AllowList(filter)))
  {
    var allow := AllowList(filter);
    ExtractIsReference(ps, filter);
    FromEntriesKeys(TopicEntries(Sections(Visible(ps)), allow));
    TopicEntriesKeys(Sections(Visible(ps)), allow);
    SectionNames(ps, allow);
  }

  /** A name is among the admitted topic headings exactly when it passes the
      allow-list and some non-blank Heading 2 paragraph strips to it. */
  lemma {:induction false} TopicHeadingsMembers(ps: seq<Paragraph>, allow: Option<seq<string>>, k: string)
    ensures k in TopicHeadings(ps, allow)
        <==> Admits(allow, k) && exists p :: p in ps && IsVisible(p) && p.style == TopicStyle && Strip(p.text) == k
  {
    if |ps| > 0 {
      var n := |ps|;
      var init := ps[..n - 1];
      var last := ps[n - 1];
      TopicHeadingsMembers(init, allow, k);
      assert ps == init + [last];
      assert forall p :: p in ps <==> p in init || p == last;
    }
  }

  /** The outline has a topic `k` exactly when `k` passes the filter and is
      the stripped text of a non-blank Heading 2 paragraph. */
  lemma ExtractHasTopic(ps: seq<Paragraph>, filter: Option<seq<string>>, k: string)
    ensures HasKey(Extract(ps, filter), k)
        <==> Admits(AllowList(filter), k) && exists p :: p in ps && IsVisible(p) && p.style == TopicStyle && Strip(p.text) == k
  {
    ExtractKeys(ps, filter);
    DedupSameElements(TopicHeadings(ps, AllowList(filter)));
    TopicHeadingsMembers(ps, AllowList(filter), k);
  }

  /** The allow-list ignores the case of the letters. */
  lemma AdmitsIgnoresCase(filter: Option<seq<string>>, a: string, b: string)
    requires Lower(a) == Lower(b)
    ensures Admits(AllowList(filter), a) <==> Admits(AllowList(filter), b)
  {
  }

  /** An absent or empty filter admits every topic. */
  lemma NoFilterAdmitsAll(filter: Option<seq<string>>, name: string)
    requires filter.None? || filter.value == []
    ensures Admits(AllowList(filter), name)
  {
  }

  // ---------------------------------------------------------------------
  // The shape of every topic.

  /** A stored topic: its name and every text in it are stripped, it keeps
      its own text only when it has no subtopic, and its subtopic names are
      distinct. */
  predicate Tidy(name: string, t: Topic)
  {
    && IsTrimmed(name, IsSpace)
    && IsTrimmed(t.text, IsSpace)
    && (t.text == "" || |t.subtopics| == 0)
    && UniqueKeys(t.subtopics)
    && forall e :: e in t.subtopics ==> IsTrimmed(e.key, IsSpace) && IsTrimmed(e.value, IsSpace)
  }

  lemma {:induction false} SubentriesTrimmed(ss: seq<Section>)
    ensures forall e :: e in Subentries(ss) ==> IsTrimmed(e.key, IsSpace) && IsTrimmed(e.value, IsSpace)
  {
    if |ss| > 0 {
      SubentriesTrimmed(ss[..|ss| - 1]);
    }
  }

  lemma TopicOfTidy(name: string, body: seq<Paragraph>)
    requires IsTrimmed(name, IsSpace)
    ensures Tidy(name, TopicOf(body))
  {
    var c := CutAt(body, SubtopicStyle);
    FromEntriesUniqueKeys(Subentries(c.sections));
    FromEntriesEntries(Subentries(c.sections));
    SubentriesTrimmed(c.sections);
    if |c.sections| == 0 {
      assert Subentries(c.sections) == [];
    }
  }

  lemma {:induction false} TopicEntriesTidy(ss: seq<Section>, allow: Option<seq<string>>)
    ensures forall e :: e in TopicEntries(ss, allow) ==> Tidy(e.key, e.value) && Admits(allow, e.key)
  {
    if |ss| > 0 {
      var s := ss[|ss| - 1];
      TopicEntriesTidy(ss[..|ss| - 1], allow);
      TopicOfTidy(Name(s), s.body);
    }
  }

  /** Every topic of the outline passes the filter, is stripped, and has
      either its own text or subtopics but not both; no topic name occurs
      twice. */
  lemma ExtractTidy(ps: seq<Paragraph>, filter: Option<seq<string>>)
    ensures UniqueKeys(Extract(ps, filter))
    ensures forall e :: e in Extract(ps, filter) ==> Tidy(e.key, e.value) && Admits(AllowList(filter), e.key)
  {
    var es := TopicEntries(Sections(Visible(ps)), AllowList(filter));
    ExtractIsReference(ps, filter);
    FromEntriesUniqueKeys(es);
    FromEntriesEntries(es);
    TopicEntriesTidy(Sections(Visible(ps)), AllowList(filter));
  }

  // ---------------------------------------------------------------------
  // Blank paragraphs.

  lemma {:induction false} VisibleIdempotent(ps: seq<Paragraph>)
    ensures Visible(Visible(ps)) == Visible(ps)
  {
    if |ps| > 0 {
      var init := ps[..|ps| - 1];
      var p := ps[|ps| - 1];
      VisibleIdempotent(init);
      if IsVisible(p) {
        assert Visible(ps) == Visible(init) + [p];
        VisibleSnoc(Visible(init), p);
      } else {
        assert Visible(ps) == Visible(init);
      }
    }
  }

  /** Blank paragraphs make no difference to the outline. */
  lemma ExtractIgnoresBlank(ps: seq<Paragraph>, filter: Option<seq<string>>)
    ensures Extract(Visible(ps), filter) == Extract(ps, filter)
  {
    ExtractIsReference(ps, filter);
    ExtractIsReference(Visible(ps), filter);
    VisibleIdempotent(ps);
  }

  // ---------------------------------------------------------------------
  // The outline as JSON.

  lemma {:induction false} SubtopicJsonWellFormed(t: Topic)
    requires UniqueKeys(t.subtopics)
    ensures WellFormed(TopicJson(t))
  {
    var fs := TopicJson(t).fields;
    assert Keys(fs) == ["text", "subtopics"];
    var sub := fs[1].value;
    assert Keys(sub.fields) == Keys(t.subtopics);
    forall i | 0 <= i < |sub.fields|
      ensures WellFormed(sub.fields[i].value)
    {
      assert Keys(sub.fields[i].value.fields) == ["text"];
    }
  }

  /** The outline becomes JSON with the same topics in the same order, and
      every object in it has distinct keys. */
  lemma ExtractJson(ps: seq<Paragraph>, filter: Option<seq<string>>)
    ensures Keys(OutlineJson(Extract(ps, filter)).fields) == Keys(Extract(ps, filter))
    ensures WellFormed(OutlineJson(Extract(ps, filter)))
  {
    var o := Extract(ps, filter);
    ExtractTidy(ps, filter);
    var j := OutlineJson(o);
    assert Keys(j.fields) == Keys(o);
    forall i | 0 <= i < |j.fields|
      ensures WellFormed(j.fields[i].value)
    {
      assert o[i] in o;
      SubtopicJsonWellFormed(o[i].value);
    }
  }

  // ---------------------------------------------------------------------
  // The structure analysis.

  /** The number of non-blank paragraphs of style `style` whose style name
      starts with "Heading". */
  function HeadingCount(ps: seq<Paragraph>, style: string): nat
  {
    if |ps| == 0 then 0
    else
      var p := ps[|ps| - 1];
      HeadingCount(ps[..|ps| - 1], style) + (if IsCountedHeading(p) && p.style == style then 1 else 0)
  }

  /** The analysis lists every non-blank Heading 2 text, in order. */
  lemma {:induction false} AnalyzeTopics(ps: seq<Paragraph>)
    ensures Analyze(ps).topics == TopicHeadings(ps, None)
  {
    if |ps| > 0 {
      var init := ps[..|ps| - 1];
      var p := ps[|ps| - 1];
      AnalyzeTopics(init);
      assert StartsWith(TopicStyle, "Heading");
      if IsVisible(p) && p.style == TopicStyle {
        assert Analyze(ps).topics == Analyze(init).topics + [Strip(p.text)];
      } else {
        assert Analyze(ps).topics == Analyze(init).topics;
        assert TopicHeadings(ps, None) == TopicHeadings(init, None);
      }
    }
  }

  /** Counting a style adds one to that style's count, starting from
      zero, and changes no other count. */
  lemma CountStyleGet(c: seq<Entry<nat>>, s: string, t: string)
    ensures Get(CountStyle(c, s), t) == if s == t then Some(Get(c, s).GetOr(0) + 1) else Get(c, t)
  {
    var n: nat := Get(c, s).GetOr(0) + 1;
    assert CountStyle(c, s) == Put(c, s, n);
    if s != t {
      assert Get(Put(c, s, n), t) == Get(c, t);
    }
  }

  /** One more paragraph adds one to the count of its style when it is a
      counted heading, and changes no other count. */
  lemma AnalyzeCountStep(ps: seq<Paragraph>, style: string)
    requires |ps| > 0
    ensures var p := ps[|ps| - 1];
      var before := Get(Analyze(ps[..|ps| - 1]).headingCounts, style);
      Get(Analyze(ps).headingCounts, style)
        == if IsCountedHeading(p) && p.style == style then Some(before.GetOr(0) + 1) else before
  {
    var p := ps[|ps| - 1];
    var c := Analyze(ps[..|ps| - 1]).headingCounts;
    if IsCountedHeading(p) {
      assert Analyze(ps).headingCounts == CountStyle(c, p.style);
      CountStyleGet(c, p.style, style);
    } else {
      assert Analyze(ps).headingCounts == c;
    }
  }

  /** A count kept as "absent or positive" stays so when it is bumped or kept. */
  lemma CountAdvances(prev: Option<nat>, cur: Option<nat>, n: nat, total: nat, bump: bool)
    requires prev == if n == 0 then None else Some(n)
    requires cur == if bump then Some(prev.GetOr(0) + 1) else prev
    requires total == n + if bump then 1 else 0
    ensures cur == if total == 0 then None else Some(total)
  {
  }

  /** The analysis counts the heading style `style` by its non-blank
      paragraphs, and leaves it out when it never occurs. */
  lemma {:induction false} AnalyzeCount(ps: seq<Paragraph>, style: string)
    ensures Get(Analyze(ps).headingCounts, style)
         == if HeadingCount(ps, style) == 0 then None else Some(HeadingCount(ps, style))
  {
    if |ps| > 0 {
      var init := ps[..|ps| - 1];
      var p := ps[|ps| - 1];
      AnalyzeCount(init, style);
      AnalyzeCountStep(ps, style);
      CountAdvances(Get(Analyze(init).headingCounts, style), Get(Analyze(ps).headingCounts, style),
                    HeadingCount(init, style), HeadingCount(ps, style), IsCountedHeading(p) && p.style == style);
    }
  }

  /** Without a filter, the outline's topics are the analysis's topic list
      with repetitions removed. */
  lemma ExtractMatchesAnalysis(ps: seq<Paragraph>)
    ensures Keys(Extract(ps, None)) == Dedup(Analyze(ps).topics)
  {
    ExtractKeys(ps, None);
    AnalyzeTopics(ps);
  }
}
