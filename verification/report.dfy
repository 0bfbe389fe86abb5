/** `generateMarkdown`: the report text built from an analysis, first as the
    template chunks the component appends one after another, then as a list
    of lines against which its layout is stated. */
module Report {
  import opened Wrappers
  import opened Seqs
  import opened Text
  import opened Csv
  import opened Metrics
  import opened Analysis

  // ------------------------------------------------------- fixed text parts

  const Title := "# Customer Support QA Analysis Report"
  /** The two section headings carry the emoji bytes as the file holds them:
      UTF-8 read back through another code page. */
  const OverviewHeading := "## \U{F8FF}\U{FC}\U{EC}\U{E4} Team Overview"
  const MetricsHeading := "### Overall Metrics"
  const DistributionHeading := "### Feedback Distribution"
  const AgentsHeading := "## \U{F8FF}\U{FC}\U{EB}\U{2022} Per-Agent Analysis"
  const PerformanceHeading := "**Performance Metrics:**"
  const Rule := "---"
  const WinsPrefix := "**\U{201A}\U{FA}\U{D6} Good Wins ("
  const RecommendationsPrefix := "**\U{201A}\U{F6}\U{2020}\U{D4}\U{220F}\U{E8} Recommendations for Improvement ("

  function WinsHeading(excellent: nat): string
  {
    WinsPrefix + NatToString(excellent) + " excellent conversations):**"
  }

  function RecommendationsHeading(improvement: nat): string
  {
    RecommendationsPrefix + NatToString(improvement) + " conversations needing attention):**"
  }

  /** `- **name**: count conversations`. */
  function DistributionLine(item: FeedbackCount): string
  {
    "- **" + item.name + "**: " + NatToString(item.count) + " conversations"
  }

  // ------------------------------------------------- the text as it is built

  /** A line of the report with its newline: every `markdown +=` in
      `generateMarkdown` appends one such line, or two when the template
      ends in `\n\n` (the second line being empty). */
  function Line(s: string): string
  {
    s + "\n"
  }

  /** `list.forEach(x => { if (x) markdown += `- ${x}\n` })`: an empty
      entry is falsy and is skipped, so the text is one `- ` line per
      non-empty entry, in order. */
  function Bullets(xs: seq<string>): (text: string)
    ensures text == Unlines(BulletLines(xs))
  {
    if |xs| == 0 then ""
    else
      var init, last := xs[..|xs| - 1], xs[|xs| - 1];
      var text := Bullets(init) + (if last != "" then Line("- " + last) else "");
      assert text == Unlines(BulletLines(xs)) by {
        if last != "" {
          UnlinesSnoc(BulletLines(init), "- " + last);
        } else {
          assert BulletLines(xs) == BulletLines(init);
        }
      }
      text
  }

  function TeamText(t: TeamSummary): string
  {
    Line(OverviewHeading) + Line("")
    + Line(MetricsHeading)
    + Line("- **Team Average QA Score**: " + t.avgScore + "/100")
    + Line("- **Writing Style Average**: " + t.avgWriting + "/3")
    + Line("- **Accuracy Average**: " + t.avgAccuracy + "/3")
    + Line("- **Empathy & Helpfulness Average**: " + t.avgEmpathy + "/3")
    + Line("- **Total Conversations Analyzed**: " + NatToString(t.totalConversations)) + Line("")
  }

  function DistributionText(items: seq<FeedbackCount>): string
  {
    if |items| == 0 then ""
    else DistributionText(items[..|items| - 1]) + Line(DistributionLine(items[|items| - 1]))
  }

  function MetricsText(g: AgentSummary): string
  {
    Line("### " + g.name) + Line("")
    + Line(PerformanceHeading)
    + Line("- Average QA Score: " + g.avgScore + "/100")
    + Line("- Writing Style: " + g.avgWriting + "/3")
    + Line("- Accuracy: " + g.avgAccuracy + "/3")
    + Line("- Empathy & Helpfulness: " + g.avgEmpathy + "/3")
    + Line("- Total Conversations: " + NatToString(g.totalConversations)) + Line("")
  }

  /** The Good Wins block: nothing without wins, otherwise the heading with
      the excellent count, one bullet per win and a blank line. */
  function WinsText(g: AgentSummary): (text: string)
    ensures text == Unlines(WinsLines(g))
  {
    if |g.goodWins| > 0 then
      BlockAsLines(WinsHeading(g.excellentCount), g.goodWins);
      Line(WinsHeading(g.excellentCount)) + Bullets(g.goodWins) + Line("")
    else ""
  }

  /** The recommendations block: nothing without recommendations, otherwise
      the heading with the improvement count, one bullet per entry and a
      blank line. */
  function RecommendationsText(g: AgentSummary): (text: string)
    ensures text == Unlines(RecommendationsLines(g))
  {
    if |g.recommendations| > 0 then
      BlockAsLines(RecommendationsHeading(g.improvementCount), g.recommendations);
      Line(RecommendationsHeading(g.improvementCount)) + Bullets(g.recommendations) + Line("")
    else ""
  }

  /** The body of `analysisData.agents.forEach(agent => …)`: the agent's
      metrics, its wins and recommendations blocks, the rule and a blank
      line, as lines. */
  function AgentText(g: AgentSummary): (text: string)
    ensures text == Unlines(AgentLines(g))
  {
    var m, w, r := MetricsLines(g), WinsLines(g), RecommendationsLines(g);
    assert Unlines(m + w + r) == MetricsText(g) + WinsText(g) + RecommendationsText(g) by {
      MetricsAsLines(g);
      UnlinesAppend(m, w);
      UnlinesAppend(m + w, r);
    }
    UnlinesTwo(Rule, "");
    UnlinesAppend(m + w + r, [Rule, ""]);
    Associative(MetricsText(g) + WinsText(g) + RecommendationsText(g), Line(Rule), Line(""));
    MetricsText(g) + WinsText(g) + RecommendationsText(g) + Line(Rule) + Line("")
  }

  function AgentsText(agents: seq<AgentSummary>): string
  {
    if |agents| == 0 then ""
    else AgentsText(agents[..|agents| - 1]) + AgentText(agents[|agents| - 1])
  }

  /** The distribution heading, one line per bucket, and a blank line. */
  function DistributionSectionText(items: seq<FeedbackCount>): string
  {
    Line(DistributionHeading) + DistributionText(items) + Line("")
  }

  /** Everything `generateMarkdown` appends after the title. */
  function ReportText(d: AnalysisData): string
  {
    TeamText(d.team)
    + DistributionSectionText(d.feedbackData)
    + (Line(AgentsHeading) + Line(""))
    + AgentsText(d.agents)
  }

  /** `generateMarkdown()`: the empty string while there is no analysis,
      otherwise the report, which opens with the fixed title. */
  function Markdown(a: Option<AnalysisData>): (md: string)
    ensures a.None? ==> md == ""
    ensures a.Some? ==> |md| >= |Title| + 2 && md[..|Title| + 2] == Title + "\n\n"
  {
    match a
    case None => ""
    case Some(d) =>
      var body := ReportText(d);
      TitleOpens(body);
      Line(Title) + Line("") + body
  }

  lemma TitleOpens(body: string)
    ensures var md := Line(Title) + Line("") + body;
            |md| >= |Title| + 2 && md[..|Title| + 2] == Title + "\n\n"
  {
    var head := Line(Title) + Line("");
    assert head == Title + "\n\n" by {
      Associative(Title, "\n", "" + "\n");
    }
    TakeConcat(head, body);
  }

  // ------------------------------------------------ the report line by line

  /** The text of a list of lines, each ended by a newline. */
  function Unlines(lines: seq<string>): (text: string)
  {
    if |lines| == 0 then "" else Unlines(lines[..|lines| - 1]) + Line(lines[|lines| - 1])
  }

  predicate NonEmpty(s: string)
  {
    s != ""
  }

  /** One `- ` line for each non-empty entry, in order. */
  function BulletLines(xs: seq<string>): (lines: seq<string>)
    ensures |lines| == |Filter(xs, NonEmpty)|
    ensures forall i :: 0 <= i < |lines| ==> lines[i] == "- " + Filter(xs, NonEmpty)[i]
  {
    if |xs| == 0 then []
    else
      var last := xs[|xs| - 1];
      BulletLines(xs[..|xs| - 1]) + (if last != "" then ["- " + last] else [])
  }

  function TeamLines(t: TeamSummary): seq<string>
  {
    [ OverviewHeading, "", MetricsHeading,
      "- **Team Average QA Score**: " + t.avgScore + "/100",
      "- **Writing Style Average**: " + t.avgWriting + "/3",
      "- **Accuracy Average**: " + t.avgAccuracy + "/3",
      "- **Empathy & Helpfulness Average**: " + t.avgEmpathy + "/3",
      "- **Total Conversations Analyzed**: " + NatToString(t.totalConversations), "" ]
  }

  function DistributionLines(items: seq<FeedbackCount>): (lines: seq<string>)
  {
    seq(|items|, i requires 0 <= i < |items| => DistributionLine(items[i]))
  }

  function DistributionSectionLines(items: seq<FeedbackCount>): seq<string>
  {
    [DistributionHeading] + DistributionLines(items) + [""]
  }

  function MetricsLines(g: AgentSummary): seq<string>
  {
    [ "### " + g.name, "", PerformanceHeading,
      "- Average QA Score: " + g.avgScore + "/100",
      "- Writing Style: " + g.avgWriting + "/3",
      "- Accuracy: " + g.avgAccuracy + "/3",
      "- Empathy & Helpfulness: " + g.avgEmpathy + "/3",
      "- Total Conversations: " + NatToString(g.totalConversations), "" ]
  }

  function WinsLines(g: AgentSummary): seq<string>
  {
    if |g.goodWins| > 0 then [WinsHeading(g.excellentCount)] + BulletLines(g.goodWins) + [""] else []
  }

  function RecommendationsLines(g: AgentSummary): seq<string>
  {
    if |g.recommendations| > 0
    then [RecommendationsHeading(g.improvementCount)] + BulletLines(g.recommendations) + [""]
    else []
  }

  function AgentLines(g: AgentSummary): seq<string>
  {
    MetricsLines(g) + WinsLines(g) + RecommendationsLines(g) + [Rule, ""]
  }

  function AgentsLines(agents: seq<AgentSummary>): seq<string>
  {
    if |agents| == 0 then []
    else AgentsLines(agents[..|agents| - 1]) + AgentLines(agents[|agents| - 1])
  }

  /** The lines after the title. */
  function ReportLines(d: AnalysisData): seq<string>
  {
    TeamLines(d.team)
    + DistributionSectionLines(d.feedbackData)
    + [AgentsHeading, ""]
    + AgentsLines(d.agents)
  }

  /** The report of an analysis as a list of lines. */
  function DocLines(d: AnalysisData): seq<string>
  {
    [Title, ""] + ReportLines(d)
  }

  // ------------------------------------------------ text and lines agree

  lemma UnlinesSnoc(lines: seq<string>, x: string)
    ensures Unlines(lines + [x]) == Unlines(lines) + Line(x)
  {
    assert (lines + [x])[..|lines|] == lines;
  }

  lemma {:induction false} UnlinesAppend(a: seq<string>, b: seq<string>)
    ensures Unlines(a + b) == Unlines(a) + Unlines(b)
  {
    if |b| == 0 {
      assert a + b == a;
    } else {
      var init, last := b[..|b| - 1], b[|b| - 1];
      assert a + b == (a + init) + [last];
      UnlinesSnoc(a + init, last);
      UnlinesAppend(a, init);
      assert Unlines(b) == Unlines(init) + Line(last);
      Associative(Unlines(a), Unlines(init), Line(last));
    }
  }

  lemma Associative<T>(x: seq<T>, y: seq<T>, z: seq<T>)
    ensures x + y + z == x + (y + z)
  {
  }

  lemma UnlinesPrefix(ls: seq<string>, k: nat)
    requires k < |ls|
    ensures Unlines(ls[..k + 1]) == Unlines(ls[..k]) + Line(ls[k])
  {
    assert ls[..k + 1][..k] == ls[..k];
  }

  /** The nine-line blocks: the team metrics and an agent's metrics. */
  lemma UnlinesNine(ls: seq<string>)
    requires |ls| == 9
    ensures Unlines(ls) == Line(ls[0]) + Line(ls[1]) + Line(ls[2]) + Line(ls[3]) + Line(ls[4])
                           + Line(ls[5]) + Line(ls[6]) + Line(ls[7]) + Line(ls[8])
  {
    var u4 := Unlines(ls[..4]);
    assert u4 == Line(ls[0]) + Line(ls[1]) + Line(ls[2]) + Line(ls[3]) by {
      UnlinesPrefix(ls, 0);
      assert Unlines(ls[..1]) == Line(ls[0]);
      UnlinesPrefix(ls, 1);
      UnlinesPrefix(ls, 2);
      UnlinesPrefix(ls, 3);
    }
    var u7 := Unlines(ls[..7]);
    assert u7 == u4 + Line(ls[4]) + Line(ls[5]) + Line(ls[6]) by {
      UnlinesPrefix(ls, 4);
      UnlinesPrefix(ls, 5);
      UnlinesPrefix(ls, 6);
    }
    assert Unlines(ls) == u7 + Line(ls[7]) + Line(ls[8]) by {
      UnlinesPrefix(ls, 7);
      UnlinesPrefix(ls, 8);
      assert ls[..9] == ls;
    }
  }

  lemma TeamAsLines(t: TeamSummary)
    ensures TeamText(t) == Unlines(TeamLines(t))
  {
    UnlinesNine(TeamLines(t));
  }

  lemma MetricsAsLines(g: AgentSummary)
    ensures MetricsText(g) == Unlines(MetricsLines(g))
  {
    UnlinesNine(MetricsLines(g));
  }

  lemma {:induction false} DistributionAsLines(items: seq<FeedbackCount>)
    ensures DistributionText(items) == Unlines(DistributionLines(items))
  {
    if |items| > 0 {
      var init := items[..|items| - 1];
      DistributionAsLines(init);
      assert DistributionLines(items) == DistributionLines(init) + [DistributionLine(items[|items| - 1])];
      UnlinesSnoc(DistributionLines(init), DistributionLine(items[|items| - 1]));
    }
  }

  lemma UnlinesOne(x: string)
    ensures Unlines([x]) == Line(x)
  {
    assert [x][..0] == [];
  }

  /** A heading, the bullets and a closing blank line. */
  lemma BlockAsLines(heading: string, xs: seq<string>)
    ensures Line(heading) + Bullets(xs) + Line("") == Unlines([heading] + BulletLines(xs) + [""])
  {
    var bl := BulletLines(xs);
    assert Unlines([heading] + bl) == Line(heading) + Bullets(xs) by {
      UnlinesAppend([heading], bl);
      UnlinesOne(heading);
    }
    UnlinesSnoc([heading] + bl, "");
  }

  lemma UnlinesTwo(x: string, y: string)
    ensures Unlines([x, y]) == Line(x) + Line(y)
  {
    assert [x, y] == [x] + [y];
    UnlinesOne(x);
    UnlinesSnoc([x], y);
  }

  lemma {:induction false} AgentsAsLines(agents: seq<AgentSummary>)
    ensures AgentsText(agents) == Unlines(AgentsLines(agents))
  {
    if |agents| > 0 {
      var init := agents[..|agents| - 1];
      AgentsAsLines(init);
      UnlinesAppend(AgentsLines(init), AgentLines(agents[|agents| - 1]));
    }
  }

  lemma UnlinesFour(a: seq<string>, b: seq<string>, c: seq<string>, e: seq<string>)
    ensures Unlines(a + b + c + e) == Unlines(a) + Unlines(b) + Unlines(c) + Unlines(e)
  {
    UnlinesAppend(a, b);
    UnlinesAppend(a + b, c);
    UnlinesAppend(a + b + c, e);
  }

  lemma UnlinesThree(x: string, y: string, z: string)
    ensures Unlines([x, y, z]) == Line(x) + Line(y) + Line(z)
  {
    assert [x, y, z] == [x, y] + [z];
    UnlinesTwo(x, y);
    UnlinesSnoc([x, y], z);
  }

  lemma DistributionSectionAsLines(items: seq<FeedbackCount>)
    ensures DistributionSectionText(items) == Unlines(DistributionSectionLines(items))
  {
    var dl := DistributionLines(items);
    assert Unlines([DistributionHeading] + dl) == Line(DistributionHeading) + DistributionText(items) by {
      DistributionAsLines(items);
      UnlinesAppend([DistributionHeading], dl);
      UnlinesOne(DistributionHeading);
    }
    UnlinesSnoc([DistributionHeading] + dl, "");
  }

  lemma ReportAsLines(d: AnalysisData)
    ensures ReportText(d) == Unlines(ReportLines(d))
  {
    TeamAsLines(d.team);
    DistributionSectionAsLines(d.feedbackData);
    UnlinesTwo(AgentsHeading, "");
    AgentsAsLines(d.agents);
    UnlinesFour(TeamLines(d.team), DistributionSectionLines(d.feedbackData), [AgentsHeading, ""],
                AgentsLines(d.agents));
  }

  /** The report is its lines, each ended by a newline. */
  lemma MarkdownAsLines(d: AnalysisData)
    ensures Markdown(Some(d)) == Unlines(DocLines(d))
  {
    UnlinesOne(Title);
    UnlinesSnoc([Title], "");
    assert [Title] + [""] == [Title, ""];
    ReportAsLines(d);
    UnlinesAppend([Title, ""], ReportLines(d));
  }

  // ------------------------------------------------ one section per agent

  /** The `---` line closing an agent's section. */
  predicate IsRule(line: string)
  {
    line == Rule
  }

  /** A line that is empty or longer than three characters is no rule. */
  lemma NoRuleLines(ls: seq<string>)
    requires forall i :: 0 <= i < |ls| ==> ls[i] == "" || |ls[i]| > 3
    ensures Count(ls, IsRule) == 0
  {
    CountNone(ls, IsRule);
  }

  /** A bullet line starts with `- `, so it is never the `---` rule. */
  lemma BulletsNoRule(xs: seq<string>)
    ensures Count(BulletLines(xs), IsRule) == 0
  {
    var ls := BulletLines(xs);
    forall i | 0 <= i < |ls| ensures !IsRule(ls[i]) {
      assert ls[i][1] == ' ';
    }
    CountNone(ls, IsRule);
  }

  lemma BlockNoRule(heading: string, xs: seq<string>)
    requires |heading| > 3
    ensures Count([heading] + BulletLines(xs) + [""], IsRule) == 0
  {
    BulletsNoRule(xs);
    CountAppend([heading], BulletLines(xs), IsRule);
    CountAppend([heading] + BulletLines(xs), [""], IsRule);
    NoRuleLines([heading]);
    NoRuleLines([""]);
  }

  lemma ListsNoRule(g: AgentSummary)
    ensures Count(WinsLines(g), IsRule) == 0
    ensures Count(RecommendationsLines(g), IsRule) == 0
  {
    if |g.goodWins| > 0 {
      BlockNoRule(WinsHeading(g.excellentCount), g.goodWins);
    }
    if |g.recommendations| > 0 {
      BlockNoRule(RecommendationsHeading(g.improvementCount), g.recommendations);
    }
  }

  /** Counting over four pieces. */
  lemma CountFour<T>(a: seq<T>, b: seq<T>, c: seq<T>, e: seq<T>, p: T -> bool)
    ensures Count(a + b + c + e, p) == Count(a, p) + Count(b, p) + Count(c, p) + Count(e, p)
  {
    CountAppend(a, b, p);
    CountAppend(a + b, c, p);
    CountAppend(a + b + c, e, p);
  }

  /** An agent's section holds exactly one rule, its last line but one. */
  lemma AgentRule(g: AgentSummary)
    ensures Count(AgentLines(g), IsRule) == 1
  {
    NoRuleLines(MetricsLines(g));
    ListsNoRule(g);
    assert Count([Rule, ""], IsRule) == 1 by {
      assert [Rule][..0] == [];
      assert Count([Rule], IsRule) == 1;
      NoRuleLines([""]);
      CountAppend([Rule], [""], IsRule);
      assert [Rule] + [""] == [Rule, ""];
    }
    CountFour(MetricsLines(g), WinsLines(g), RecommendationsLines(g), [Rule, ""], IsRule);
  }

  /** The agent sections hold one rule per agent. */
  lemma {:induction false} AgentsRules(agents: seq<AgentSummary>)
    ensures Count(AgentsLines(agents), IsRule) == |agents|
  {
    if |agents| > 0 {
      var init := agents[..|agents| - 1];
      AgentsRules(init);
      AgentRule(agents[|agents| - 1]);
      CountAppend(AgentsLines(init), AgentLines(agents[|agents| - 1]), IsRule);
    }
  }

  /** The report holds exactly one `---` line per agent: every agent gets a
      section and nothing else in the report is a rule. */
  lemma RulePerAgent(d: AnalysisData)
    ensures Count(DocLines(d), IsRule) == |d.agents|
  {
    TeamNoRule(d.team);
    SectionNoRule(d.feedbackData);
    HeadingsNoRule();
    AgentsRules(d.agents);
    CountFour(TeamLines(d.team), DistributionSectionLines(d.feedbackData), [AgentsHeading, ""],
              AgentsLines(d.agents), IsRule);
    CountAppend([Title, ""], ReportLines(d), IsRule);
  }

  lemma TeamNoRule(t: TeamSummary)
    ensures Count(TeamLines(t), IsRule) == 0
  {
    NoRuleLines(TeamLines(t));
  }

  lemma SectionNoRule(items: seq<FeedbackCount>)
    ensures Count(DistributionSectionLines(items), IsRule) == 0
  {
    NoRuleLines(DistributionSectionLines(items));
  }

  lemma HeadingsNoRule()
    ensures Count([AgentsHeading, ""], IsRule) == 0
    ensures Count([Title, ""], IsRule) == 0
  {
    NoRuleLines([AgentsHeading, ""]);
    NoRuleLines([Title, ""]);
  }

  // ----------------------------------------- the wins and recommendations

  predicate StartsWith(line: string, prefix: string)
  {
    |prefix| <= |line| && line[..|prefix|] == prefix
  }

  /** The predicate "is a heading opening with `prefix`". */
  function Heading(prefix: string): string -> bool
  {
    line => StartsWith(line, prefix)
  }

  /** The two list headings open with `**` and differ from the
      performance heading at the third character and from each other at
      the fourth. */
  predicate ListPrefix(prefix: string)
  {
    |prefix| > 3 && prefix[0] == '*' && prefix[2] != PerformanceHeading[2]
  }

  lemma BulletsNoHeading(xs: seq<string>, prefix: string)
    requires ListPrefix(prefix)
    ensures Count(BulletLines(xs), Heading(prefix)) == 0
  {
    var ls := BulletLines(xs);
    forall i | 0 <= i < |ls| ensures !Heading(prefix)(ls[i]) {
      assert ls[i][0] == '-';
    }
    CountNone(ls, Heading(prefix));
  }

  lemma MetricsNoHeading(g: AgentSummary, prefix: string)
    requires ListPrefix(prefix)
    ensures Count(MetricsLines(g), Heading(prefix)) == 0
  {
    var m := MetricsLines(g);
    forall i | 0 <= i < |m| ensures !Heading(prefix)(m[i]) {
      assert m[i] == "" || m[i][0] != '*' || m[i][2] != prefix[2];
    }
    CountNone(m, Heading(prefix));
  }

  lemma TailNoHeading(prefix: string)
    requires ListPrefix(prefix)
    ensures Count([Rule, ""], Heading(prefix)) == 0
  {
    CountNone([Rule, ""], Heading(prefix));
  }

  /** A block whose heading opens with `prefix` has that one heading. */
  lemma BlockOwnHeading(heading: string, xs: seq<string>, prefix: string)
    requires ListPrefix(prefix) && StartsWith(heading, prefix)
    ensures Count([heading] + BulletLines(xs) + [""], Heading(prefix)) == 1
  {
    BulletsNoHeading(xs, prefix);
    CountAppend([heading], BulletLines(xs), Heading(prefix));
    CountAppend([heading] + BulletLines(xs), [""], Heading(prefix));
    assert Count([heading], Heading(prefix)) == 1 by {
      assert [heading][..0] == [];
    }
    CountNone([""], Heading(prefix));
  }

  /** A block whose heading differs from `prefix` at the fourth character
      has no line opening with `prefix`. */
  lemma BlockOtherHeading(heading: string, xs: seq<string>, prefix: string)
    requires ListPrefix(prefix) && |heading| > 3 && heading[3] != prefix[3]
    ensures Count([heading] + BulletLines(xs) + [""], Heading(prefix)) == 0
  {
    BulletsNoHeading(xs, prefix);
    CountAppend([heading], BulletLines(xs), Heading(prefix));
    CountAppend([heading] + BulletLines(xs), [""], Heading(prefix));
    assert !Heading(prefix)(heading) by {
      assert |prefix| <= |heading| ==> heading[..|prefix|][3] == heading[3];
    }
    CountNone([heading], Heading(prefix));
    CountNone([""], Heading(prefix));
  }

  lemma TakeConcat<T>(a: seq<T>, b: seq<T>)
    ensures (a + b)[..|a|] == a
  {
  }

  lemma PrefixOfConcat<T>(a: seq<T>, b: seq<T>, c: seq<T>)
    ensures (a + b + c)[..|a|] == a
    ensures forall i :: 0 <= i < |a| ==> (a + b + c)[i] == a[i]
  {
  }

  /** The fixed facts about the two list prefixes the heading counts use. */
  lemma ListPrefixes()
    ensures ListPrefix(WinsPrefix) && ListPrefix(RecommendationsPrefix)
    ensures WinsPrefix[3] != RecommendationsPrefix[3]
  {
  }

  lemma WinsHeadingStarts(n: nat)
    ensures StartsWith(WinsHeading(n), WinsPrefix) && WinsHeading(n)[3] == WinsPrefix[3]
  {
    var h := WinsHeading(n);
    PrefixOfConcat(WinsPrefix, NatToString(n), h[|WinsPrefix + NatToString(n)|..]);
  }

  lemma RecommendationsHeadingStarts(n: nat)
    ensures StartsWith(RecommendationsHeading(n), RecommendationsPrefix)
    ensures RecommendationsHeading(n)[3] == RecommendationsPrefix[3]
  {
    var h := RecommendationsHeading(n);
    PrefixOfConcat(RecommendationsPrefix, NatToString(n), h[|RecommendationsPrefix + NatToString(n)|..]);
  }

  lemma WinsHeadingCount(g: AgentSummary)
    ensures Count(WinsLines(g), Heading(WinsPrefix)) == (if |g.goodWins| > 0 then 1 else 0)
    ensures Count(WinsLines(g), Heading(RecommendationsPrefix)) == 0
  {
    if |g.goodWins| > 0 {
      var h := WinsHeading(g.excellentCount);
      ListPrefixes();
      WinsHeadingStarts(g.excellentCount);
      BlockOwnHeading(h, g.goodWins, WinsPrefix);
      BlockOtherHeading(h, g.goodWins, RecommendationsPrefix);
    }
  }

  lemma RecommendationsHeadingCount(g: AgentSummary)
    ensures Count(RecommendationsLines(g), Heading(RecommendationsPrefix))
            == (if |g.recommendations| > 0 then 1 else 0)
    ensures Count(RecommendationsLines(g), Heading(WinsPrefix)) == 0
  {
    if |g.recommendations| > 0 {
      var h := RecommendationsHeading(g.improvementCount);
      ListPrefixes();
      RecommendationsHeadingStarts(g.improvementCount);
      BlockOwnHeading(h, g.recommendations, RecommendationsPrefix);
      BlockOtherHeading(h, g.recommendations, WinsPrefix);
    }
  }

  /** An agent's section has a Good Wins heading exactly when the agent has
      summarised wins, and then only one. */
  lemma WinsBlockIff(g: AgentSummary)
    ensures Count(AgentLines(g), Heading(WinsPrefix)) == (if |g.goodWins| > 0 then 1 else 0)
  {
    MetricsNoHeading(g, WinsPrefix);
    TailNoHeading(WinsPrefix);
    WinsHeadingCount(g);
    RecommendationsHeadingCount(g);
    CountFour(MetricsLines(g), WinsLines(g), RecommendationsLines(g), [Rule, ""], Heading(WinsPrefix));
  }

  /** An agent's section has a Recommendations heading exactly when the
      agent has summarised recommendations, and then only one. */
  lemma RecommendationsBlockIff(g: AgentSummary)
    ensures Count(AgentLines(g), Heading(RecommendationsPrefix)) == (if |g.recommendations| > 0 then 1 else 0)
  {
    MetricsNoHeading(g, RecommendationsPrefix);
    TailNoHeading(RecommendationsPrefix);
    WinsHeadingCount(g);
    RecommendationsHeadingCount(g);
    CountFour(MetricsLines(g), WinsLines(g), RecommendationsLines(g), [Rule, ""],
              Heading(RecommendationsPrefix));
  }

  // ------------------------------------------------ the distribution block

  /** Position `k` of the second of four concatenated pieces. */
  lemma IndexSecond<T>(a: seq<T>, b: seq<T>, c: seq<T>, e: seq<T>, k: nat)
    requires k < |b|
    ensures |a| + k < |a + b + c + e| && (a + b + c + e)[|a| + k] == b[k]
  {
  }

  lemma SectionLines(items: seq<FeedbackCount>)
    ensures |DistributionSectionLines(items)| == |items| + 2
    ensures DistributionSectionLines(items)[0] == DistributionHeading
    ensures forall i :: 0 <= i < |items| ==> DistributionSectionLines(items)[1 + i] == DistributionLine(items[i])
    ensures DistributionSectionLines(items)[1 + |items|] == ""
  {
  }

  lemma ReportDistributionBlock(d: AnalysisData)
    ensures |ReportLines(d)| > 10 + |d.feedbackData|
    ensures ReportLines(d)[9] == DistributionHeading
    ensures forall i :: 0 <= i < |d.feedbackData| ==> ReportLines(d)[10 + i] == DistributionLine(d.feedbackData[i])
    ensures ReportLines(d)[10 + |d.feedbackData|] == ""
  {
    var team := TeamLines(d.team);
    var section := DistributionSectionLines(d.feedbackData);
    var tail := [AgentsHeading, ""];
    var agents := AgentsLines(d.agents);
    assert |team| == 9;
    SectionLines(d.feedbackData);
    forall k | 0 <= k < |section| ensures ReportLines(d)[9 + k] == section[k] {
      IndexSecond(team, section, tail, agents, k);
    }
  }

  /** The distribution heading is followed by one line per entry of
      `feedbackData`, in order, and then a blank line. */
  lemma DistributionBlock(d: AnalysisData)
    ensures |DocLines(d)| > 12 + |d.feedbackData|
    ensures DocLines(d)[11] == DistributionHeading
    ensures forall i :: 0 <= i < |d.feedbackData| ==> DocLines(d)[12 + i] == DistributionLine(d.feedbackData[i])
    ensures DocLines(d)[12 + |d.feedbackData|] == ""
  {
    ReportDistributionBlock(d);
    var report := ReportLines(d);
    assert forall k :: 0 <= k < |report| ==> DocLines(d)[k + 2] == report[k];
  }

  /** For the analysis of a file the block has exactly four lines, naming
      Poor, Average, Good and Excellent in that order with the number of
      records carrying each feedback value. */
  lemma AnalysisDistributionLines(rs: seq<Record>, parse: string -> Option<real>, fmt: real -> string)
    ensures var ls := DocLines(Analyze(rs, parse, fmt));
            && |ls| > 16
            && ls[11] == DistributionHeading
            && (forall i :: 0 <= i < 4 ==>
                  ls[12 + i] == "- **" + Buckets[i].Name() + "**: "
                                + NatToString(|Filter(rs, HasFeedback(Buckets[i]))|) + " conversations")
            && ls[16] == ""
  {
    DistributionBlock(Analyze(rs, parse, fmt));
  }

  // ------------------------------------------------ from text back to lines

  /** A text free of line breaks. */
  predicate NoBreak(s: string)
  {
    '\n' !in s
  }

  predicate AllNoBreak(lines: seq<string>)
  {
    forall i :: 0 <= i < |lines| ==> NoBreak(lines[i])
  }

  /** Splitting newline-terminated lines at the newlines gives the lines
      back, followed by the empty piece after the last newline. */
  lemma {:induction false} SplitUnlines(lines: seq<string>)
    requires AllNoBreak(lines)
    ensures Split(Unlines(lines), '\n') == lines + [""]
  {
    if |lines| == 0 {
      assert Unlines(lines) == "";
    } else {
      var x, rest := lines[0], lines[1..];
      var u := Unlines(rest);
      assert Unlines(lines) == x + (['\n'] + u) by {
        assert lines == [x] + rest;
        UnlinesAppend([x], rest);
        UnlinesOne(x);
      }
      SplitUnlines(rest);
      assert Split(['\n'] + u, '\n') == [""] + rest + [""] by {
        assert (['\n'] + u)[1..] == u;
      }
      SplitPrefix(x, ['\n'] + u, '\n');
      assert x + "" == x;
      assert lines == [x] + rest;
    }
  }

  /** None of the strings the report shows contains a line break. */
  predicate TeamNoBreak(t: TeamSummary)
  {
    NoBreak(t.avgScore) && NoBreak(t.avgWriting) && NoBreak(t.avgAccuracy) && NoBreak(t.avgEmpathy)
  }

  predicate AgentNoBreak(g: AgentSummary)
  {
    && NoBreak(g.name)
    && NoBreak(g.avgScore) && NoBreak(g.avgWriting) && NoBreak(g.avgAccuracy) && NoBreak(g.avgEmpathy)
    && AllNoBreak(g.goodWins) && AllNoBreak(g.recommendations)
  }

  predicate DataNoBreak(d: AnalysisData)
  {
    && TeamNoBreak(d.team)
    && (forall i :: 0 <= i < |d.feedbackData| ==> NoBreak(d.feedbackData[i].name))
    && (forall i :: 0 <= i < |d.agents| ==> AgentNoBreak(d.agents[i]))
  }

  lemma NatNoBreak(n: nat)
    ensures NoBreak(NatToString(n))
  {
    var r := NatToString(n);
    forall i | 0 <= i < |r| ensures r[i] != '\n' {
      assert '0' <= r[i] <= '9';
    }
  }

  lemma BulletsNoBreak(xs: seq<string>)
    requires AllNoBreak(xs)
    ensures AllNoBreak(BulletLines(xs))
  {
    var ls, kept := BulletLines(xs), Filter(xs, NonEmpty);
    forall i | 0 <= i < |ls| ensures NoBreak(ls[i]) {
      assert kept[i] in xs;
      assert ls[i] == "- " + kept[i];
    }
  }

  lemma AppendNoBreak(a: seq<string>, b: seq<string>)
    requires AllNoBreak(a) && AllNoBreak(b)
    ensures AllNoBreak(a + b)
  {
  }

  lemma MetricsScoreLinesNoBreak(g: AgentSummary)
    requires AgentNoBreak(g)
    ensures NoBreak(MetricsLines(g)[3]) && NoBreak(MetricsLines(g)[4])
  {
  }

  lemma MetricsOtherLinesNoBreak(g: AgentSummary)
    requires AgentNoBreak(g)
    ensures NoBreak(MetricsLines(g)[5]) && NoBreak(MetricsLines(g)[6]) && NoBreak(MetricsLines(g)[7])
  {
    NatNoBreak(g.totalConversations);
  }

  lemma MetricsNoBreak(g: AgentSummary)
    requires AgentNoBreak(g)
    ensures AllNoBreak(MetricsLines(g))
  {
    MetricsScoreLinesNoBreak(g);
    MetricsOtherLinesNoBreak(g);
    assert NoBreak(PerformanceHeading);
  }

  lemma BlockNoBreak(heading: string, xs: seq<string>)
    requires NoBreak(heading) && AllNoBreak(xs)
    ensures AllNoBreak([heading] + BulletLines(xs) + [""])
  {
    BulletsNoBreak(xs);
    AppendNoBreak([heading], BulletLines(xs));
    AppendNoBreak([heading] + BulletLines(xs), [""]);
  }

  lemma WinsHeadingNoBreak(n: nat)
    ensures NoBreak(WinsHeading(n))
  {
    NatNoBreak(n);
  }

  lemma RecommendationsHeadingNoBreak(n: nat)
    ensures NoBreak(RecommendationsHeading(n))
  {
    NatNoBreak(n);
  }

  lemma AgentLinesNoBreak(g: AgentSummary)
    requires AgentNoBreak(g)
    ensures AllNoBreak(AgentLines(g))
  {
    var m, w, r := MetricsLines(g), WinsLines(g), RecommendationsLines(g);
    MetricsNoBreak(g);
    if |g.goodWins| > 0 {
      WinsHeadingNoBreak(g.excellentCount);
      BlockNoBreak(WinsHeading(g.excellentCount), g.goodWins);
    }
    if |g.recommendations| > 0 {
      RecommendationsHeadingNoBreak(g.improvementCount);
      BlockNoBreak(RecommendationsHeading(g.improvementCount), g.recommendations);
    }
    AppendNoBreak(m, w);
    AppendNoBreak(m + w, r);
    AppendNoBreak(m + w + r, [Rule, ""]);
  }

  lemma {:induction false} AgentsLinesNoBreak(agents: seq<AgentSummary>)
    requires forall i :: 0 <= i < |agents| ==> AgentNoBreak(agents[i])
    ensures AllNoBreak(AgentsLines(agents))
  {
    if |agents| > 0 {
      var init := agents[..|agents| - 1];
      AgentsLinesNoBreak(init);
      AgentLinesNoBreak(agents[|agents| - 1]);
    }
  }

  lemma TeamScoreLinesNoBreak(t: TeamSummary)
    requires TeamNoBreak(t)
    ensures NoBreak(TeamLines(t)[3]) && NoBreak(TeamLines(t)[4])
  {
  }

  lemma TeamAverageLinesNoBreak(t: TeamSummary)
    requires TeamNoBreak(t)
    ensures NoBreak(TeamLines(t)[5]) && NoBreak(TeamLines(t)[6])
  {
  }

  lemma TeamTotalLineNoBreak(t: TeamSummary)
    ensures NoBreak(TeamLines(t)[7])
  {
    NatNoBreak(t.totalConversations);
  }

  lemma TeamLinesNoBreak(t: TeamSummary)
    requires TeamNoBreak(t)
    ensures AllNoBreak(TeamLines(t))
  {
    TeamScoreLinesNoBreak(t);
    TeamAverageLinesNoBreak(t);
    TeamTotalLineNoBreak(t);
    assert NoBreak(OverviewHeading) && NoBreak(MetricsHeading);
  }

  lemma DistributionLinesNoBreak(items: seq<FeedbackCount>)
    requires forall i :: 0 <= i < |items| ==> NoBreak(items[i].name)
    ensures AllNoBreak(DistributionLines(items))
  {
    var dist := DistributionLines(items);
    forall i | 0 <= i < |dist| ensures NoBreak(dist[i]) {
      NatNoBreak(items[i].count);
    }
  }

  lemma HeadingsNoBreak()
    ensures AllNoBreak([Title, ""])
    ensures NoBreak(DistributionHeading)
    ensures AllNoBreak([AgentsHeading, ""])
  {
  }

  lemma DocLinesNoBreak(d: AnalysisData)
    requires DataNoBreak(d)
    ensures AllNoBreak(DocLines(d))
  {
    var team, dist := TeamLines(d.team), DistributionLines(d.feedbackData);
    TeamLinesNoBreak(d.team);
    DistributionLinesNoBreak(d.feedbackData);
    AgentsLinesNoBreak(d.agents);
    HeadingsNoBreak();
    var section := DistributionSectionLines(d.feedbackData);
    AppendNoBreak([DistributionHeading], dist);
    AppendNoBreak([DistributionHeading] + dist, [""]);
    AppendNoBreak(team, section);
    AppendNoBreak(team + section, [AgentsHeading, ""]);
    AppendNoBreak(team + section + [AgentsHeading, ""], AgentsLines(d.agents));
    AppendNoBreak([Title, ""], ReportLines(d));
  }

  /** When no shown string contains a line break, the lines of the report
      text are exactly the report's lines, the text ending in a newline. */
  lemma MarkdownSplitsIntoLines(d: AnalysisData)
    requires DataNoBreak(d)
    ensures Split(Markdown(Some(d)), '\n') == DocLines(d) + [""]
  {
    MarkdownAsLines(d);
    DocLinesNoBreak(d);
    SplitUnlines(DocLines(d));
  }

  /** The text itself then holds exactly one `---` line per agent. */
  lemma MarkdownRulePerAgent(d: AnalysisData)
    requires DataNoBreak(d)
    ensures Count(Split(Markdown(Some(d)), '\n'), IsRule) == |d.agents|
  {
    var ls := DocLines(d);
    assert Count(ls + [""], IsRule) == |d.agents| by {
      RulePerAgent(d);
      CountAppend(ls, [""], IsRule);
      NoRuleLines([""]);
    }
    MarkdownSplitsIntoLines(d);
  }
}
