/** The body of `analysisData`: team averages, the feedback distribution and
    one summary per representative, sorted by name. Numbers are kept as the
    strings `toFixed(1)` makes of them, so the formatter is a parameter. */
module Analysis {
  import opened Wrappers
  import opened Seqs
  import opened Text
  import opened Csv
  import opened StringOrder
  import opened Metrics
  import opened Highlights

  datatype TeamSummary = TeamSummary(
    avgScore: string, avgWriting: string, avgAccuracy: string, avgEmpathy: string,
    totalConversations: nat)

  datatype AgentSummary = AgentSummary(
    name: string,
    avgScore: string, avgWriting: string, avgAccuracy: string, avgEmpathy: string,
    totalConversations: nat, excellentCount: nat, improvementCount: nat,
    goodWins: seq<string>, recommendations: seq<string>)

  datatype AnalysisData = AnalysisData(
    team: TeamSummary, feedbackData: seq<FeedbackCount>, agents: seq<AgentSummary>)

  /** `mean.toFixed(1)`: `fmt` stands for the rendering of a number with one
      decimal, and the mean of nothing (0 / 0) renders as "NaN". */
  function Fixed(m: Option<real>, fmt: real -> string): (s: string)
    ensures m.None? ==> s == "NaN"
    ensures m.Some? ==> s == fmt(m.value)
  {
    match m
    case None => "NaN"
    case Some(x) => fmt(x)
  }

  /** `s` is how the app shows the average of `field` over `rs`: "NaN" for no
      records, otherwise the sum of the parsed values (0 for each value that
      is missing or does not parse) divided by the number of records. */
  predicate RendersAverage(s: string, rs: seq<Record>, field: string,
                           parse: string -> Option<real>, fmt: real -> string)
  {
    if |rs| == 0 then s == "NaN" else s == fmt(Sum(Scores(rs, field, parse)) / |rs| as real)
  }

  lemma FixedMean(rs: seq<Record>, field: string, parse: string -> Option<real>, fmt: real -> string)
    ensures RendersAverage(Fixed(FieldMean(rs, field, parse), fmt), rs, field, parse, fmt)
  {
    var m := FieldMean(rs, field, parse);
    if |rs| > 0 {
      assert m.value * |rs| as real == Sum(Scores(rs, field, parse));
    }
  }
  /** `avg.toFixed(1)` for the average of `field` over `rs`. */
  function FixedAverage(rs: seq<Record>, field: string, parse: string -> Option<real>, fmt: real -> string): (s: string)
    ensures RendersAverage(s, rs, field, parse, fmt)
  {
    FixedMean(rs, field, parse, fmt);
    Fixed(FieldMean(rs, field, parse), fmt)
  }


  /** `c['Feedback Overall']?.toLowerCase() === 'excellent'`. */
  function IsExcellent(r: Record): (b: bool)
    ensures b <==> FeedbackField in r && ToLower(r[FeedbackField]) == "excellent"
  {
    FeedbackKey(r) == Some("excellent")
  }

  /** The filter for `improvementConversations`: poor or average feedback. */
  function NeedsImprovement(r: Record): (b: bool)
    ensures b <==> FeedbackField in r && ToLower(r[FeedbackField]) in {"poor", "average"}
  {
    FeedbackKey(r) == Some("poor") || FeedbackKey(r) == Some("average")
  }

  /** The agent filters compare lower-cased strings directly while the
      distribution goes through `feedbackMapping`; both classify alike, and
      good or unrecognised feedback falls in neither subset. */
  lemma SubsetsAgreeWithBuckets(r: Record)
    ensures IsExcellent(r) <==> Classify(r) == Some(Excellent)
    ensures NeedsImprovement(r) <==> Classify(r) == Some(Poor) || Classify(r) == Some(Average)
    ensures !(IsExcellent(r) && NeedsImprovement(r))
  {
  }

  /** No conversation is both excellent and in need of improvement, so the
      two subsets together are at most all of them. */
  lemma SubsetsDisjoint(conversations: seq<Record>)
    ensures |Filter(conversations, IsExcellent)| + |Filter(conversations, NeedsImprovement)| <= |conversations|
  {
    forall r ensures !(IsExcellent(r) && NeedsImprovement(r)) {
      SubsetsAgreeWithBuckets(r);
    }
    FilterDisjointCount(conversations, IsExcellent, NeedsImprovement);
  }

  /** `summarizeText(goodWins)`: the good wins themselves, since each is
      already one sentence; at most two, none without excellent
      conversations, each ending with a period. */
  function WinsOf(excellent: seq<Record>): (wins: seq<string>)
    ensures wins == GoodWins(excellent)
    ensures |wins| <= 2
    ensures |excellent| == 0 ==> wins == []
    ensures forall i :: 0 <= i < |wins| ==> EndsWithPeriod(wins[i])
  {
    var wins := GoodWins(excellent);
    SummaryEndsWithPeriod(wins);
    SummarizeWins(excellent);
    SummarizeText(wins)
  }

  /** `summarizeText(recommendations)`: the first three recommendations
      (all, when there are fewer), each cut to its first sentence and a
      period. */
  function RecommendationsOf(improvement: seq<Record>): (recs: seq<string>)
    ensures |recs| <= 3
    ensures forall i :: 0 <= i < |recs| ==> EndsWithPeriod(recs[i])
    ensures recs == SummarizeText(Recommendations(improvement))
  {
    var recs := Recommendations(improvement);
    SummaryEndsWithPeriod(recs);
    SummarizeText(recs)
  }

  /** The summary of one agent's conversations (`conversations` in record
      order): averages over all of them, the excellent and improvement
      subsets, and at most two wins and three recommendations. */
  function SummarizeAgent(name: string, conversations: seq<Record>,
                          parse: string -> Option<real>, fmt: real -> string): (a: AgentSummary)
    ensures a.name == name && a.totalConversations == |conversations|
    ensures a.excellentCount == |Filter(conversations, IsExcellent)|
    ensures a.improvementCount == |Filter(conversations, NeedsImprovement)|
    ensures a.excellentCount + a.improvementCount <= a.totalConversations
    ensures |a.goodWins| <= 2 && |a.recommendations| <= 3
    ensures a.excellentCount == 0 ==> a.goodWins == []
    ensures a.goodWins == GoodWins(Filter(conversations, IsExcellent))
    ensures a.recommendations == SummarizeText(Recommendations(Filter(conversations, NeedsImprovement)))
    ensures forall i :: 0 <= i < |a.goodWins| ==> EndsWithPeriod(a.goodWins[i])
    ensures forall i :: 0 <= i < |a.recommendations| ==> EndsWithPeriod(a.recommendations[i])
    ensures RendersAverage(a.avgScore, conversations, ScoreField, parse, fmt)
    ensures RendersAverage(a.avgWriting, conversations, WritingScoreField, parse, fmt)
    ensures RendersAverage(a.avgAccuracy, conversations, AccuracyScoreField, parse, fmt)
    ensures RendersAverage(a.avgEmpathy, conversations, EmpathyScoreField, parse, fmt)
  {
    var score := FixedAverage(conversations, ScoreField, parse, fmt);
    var writing := FixedAverage(conversations, WritingScoreField, parse, fmt);
    var accuracy := FixedAverage(conversations, AccuracyScoreField, parse, fmt);
    var empathy := FixedAverage(conversations, EmpathyScoreField, parse, fmt);
    var excellent := Filter(conversations, IsExcellent);
    var improvement := Filter(conversations, NeedsImprovement);
    SubsetsDisjoint(conversations);
    var wins := WinsOf(excellent);
    var recs := RecommendationsOf(improvement);
    AgentSummary(name, score, writing, accuracy, empathy,
                 |conversations|, |excellent|, |improvement|, wins, recs)
  }

  /** The sorted agent names each have their list in `agentData`, holding
      exactly that agent's records. */
  lemma NamesHaveGroups(rs: seq<Record>)
    ensures forall i :: 0 <= i < |AgentNames(rs)| ==> AgentNames(rs)[i] in GroupBy(rs)
    ensures forall i :: 0 <= i < |AgentNames(rs)| ==>
              GroupBy(rs)[AgentNames(rs)[i]] == Filter(rs, ByAgent(AgentNames(rs)[i]))
  {
    var names, groups := AgentNames(rs), GroupBy(rs);
    forall i | 0 <= i < |names|
      ensures names[i] in groups && groups[names[i]] == Filter(rs, ByAgent(names[i]))
    {
      assert names[i] in names;
      assert GroupOf(groups, names[i]) == Filter(rs, ByAgent(names[i]));
    }
  }

  /** `agentAnalysis`: the summaries of the agents in ascending name order. */
  function AgentSummaries(rs: seq<Record>, parse: string -> Option<real>, fmt: real -> string): (agents: seq<AgentSummary>)
    ensures |agents| == |AgentNames(rs)|
    ensures forall i :: 0 <= i < |agents| ==>
              agents[i] == SummarizeAgent(AgentNames(rs)[i], Filter(rs, ByAgent(AgentNames(rs)[i])), parse, fmt)
  {
    var groups := GroupBy(rs);
    var names := AgentNames(rs);
    NamesHaveGroups(rs);
    seq(|names|, i requires 0 <= i < |names| => SummarizeAgent(names[i], groups[names[i]], parse, fmt))
  }

  /** `analysisData`: team figures over every record, the four-bucket
      distribution, and one summary per distinct agent name in ascending
      order, built from exactly that agent's records. */
  function Analyze(rs: seq<Record>, parse: string -> Option<real>, fmt: real -> string): (a: AnalysisData)
    ensures a.team.totalConversations == |rs|
    ensures RendersAverage(a.team.avgScore, rs, ScoreField, parse, fmt)
    ensures RendersAverage(a.team.avgWriting, rs, WritingScoreField, parse, fmt)
    ensures RendersAverage(a.team.avgAccuracy, rs, AccuracyScoreField, parse, fmt)
    ensures RendersAverage(a.team.avgEmpathy, rs, EmpathyScoreField, parse, fmt)
    ensures |a.feedbackData| == 4
    ensures forall i :: 0 <= i < 4 ==> a.feedbackData[i].name == Buckets[i].Name()
    ensures forall i :: 0 <= i < 4 ==> a.feedbackData[i].count == |Filter(rs, HasFeedback(Buckets[i]))|
    ensures |a.agents| == |AgentNames(rs)|
    ensures forall i :: 0 <= i < |a.agents| ==>
              a.agents[i] == SummarizeAgent(AgentNames(rs)[i], Filter(rs, ByAgent(AgentNames(rs)[i])), parse, fmt)
  {
    var team := TeamSummary(
      FixedAverage(rs, ScoreField, parse, fmt),
      FixedAverage(rs, WritingScoreField, parse, fmt),
      FixedAverage(rs, AccuracyScoreField, parse, fmt),
      FixedAverage(rs, EmpathyScoreField, parse, fmt),
      |rs|);
    AnalysisData(team, Distribution(rs), AgentSummaries(rs, parse, fmt))
  }

  /** The i-th agent summary carries the i-th sorted name and that agent's
      conversation count. */
  lemma AgentsFollowNames(rs: seq<Record>, parse: string -> Option<real>, fmt: real -> string)
    ensures |Analyze(rs, parse, fmt).agents| == |AgentNames(rs)|
    ensures var agents, names := Analyze(rs, parse, fmt).agents, AgentNames(rs);
            forall i :: 0 <= i < |agents| ==>
              agents[i].name == names[i] && agents[i].totalConversations == |Filter(rs, ByAgent(names[i]))|
  {
  }

  /** The agents come in strictly ascending name order, so no name occurs
      twice. */
  lemma AgentsSorted(rs: seq<Record>, parse: string -> Option<real>, fmt: real -> string)
    ensures var agents := Analyze(rs, parse, fmt).agents;
            forall i, j :: 0 <= i < j < |agents| ==> Less(agents[i].name, agents[j].name)
  {
    AgentsFollowNames(rs, parse, fmt);
  }

  /** There is an agent for every record's agent name. */
  lemma AgentsCoverRecords(rs: seq<Record>, parse: string -> Option<real>, fmt: real -> string)
    ensures var agents := Analyze(rs, parse, fmt).agents;
            forall k :: 0 <= k < |rs| ==> exists i :: 0 <= i < |agents| && agents[i].name == AgentOf(rs[k])
  {
    var agents, names := Analyze(rs, parse, fmt).agents, AgentNames(rs);
    AgentsFollowNames(rs, parse, fmt);
    forall k | 0 <= k < |rs| ensures exists i :: 0 <= i < |agents| && agents[i].name == AgentOf(rs[k]) {
      assert AgentOf(rs[k]) in names;
      var i :| 0 <= i < |names| && names[i] == AgentOf(rs[k]);
      assert agents[i].name == AgentOf(rs[k]);
    }
  }

  /** There is an agent only for names that occur in the records. */
  lemma AgentsOccur(rs: seq<Record>, parse: string -> Option<real>, fmt: real -> string)
    ensures var agents := Analyze(rs, parse, fmt).agents;
            forall i :: 0 <= i < |agents| ==> exists k :: 0 <= k < |rs| && AgentOf(rs[k]) == agents[i].name
  {
    AgentsFollowNames(rs, parse, fmt);
    NamesOccur(rs, Analyze(rs, parse, fmt).agents);
  }

  lemma NamesOccur(rs: seq<Record>, agents: seq<AgentSummary>)
    requires |agents| == |AgentNames(rs)|
    requires forall i :: 0 <= i < |agents| ==> agents[i].name == AgentNames(rs)[i]
    ensures forall i :: 0 <= i < |agents| ==> exists k :: 0 <= k < |rs| && AgentOf(rs[k]) == agents[i].name
  {
    var names := AgentNames(rs);
    forall i | 0 <= i < |agents| ensures exists k :: 0 <= k < |rs| && AgentOf(rs[k]) == agents[i].name {
      assert names[i] in names;
    }
  }

  /** Every listed agent has at least one conversation. */
  lemma AgentsNonEmpty(rs: seq<Record>, parse: string -> Option<real>, fmt: real -> string)
    ensures var agents := Analyze(rs, parse, fmt).agents;
            forall i :: 0 <= i < |agents| ==> agents[i].totalConversations > 0
  {
    var agents, names := Analyze(rs, parse, fmt).agents, AgentNames(rs);
    AgentsFollowNames(rs, parse, fmt);
    forall i | 0 <= i < |agents| ensures agents[i].totalConversations > 0 {
      assert names[i] in names;
      var k :| 0 <= k < |rs| && AgentOf(rs[k]) == names[i];
      assert ByAgent(names[i])(rs[k]);
      assert rs[k] in Filter(rs, ByAgent(names[i]));
    }
  }

  /** The sum of the agents' conversation counts. */
  function AgentTotal(agents: seq<AgentSummary>): nat
  {
    if |agents| == 0 then 0 else agents[0].totalConversations + AgentTotal(agents[1..])
  }

  /** The agents' conversation counts add up to the team total: every
      record is counted under exactly one agent. */
  lemma AgentTotalsMatchTeam(rs: seq<Record>, parse: string -> Option<real>, fmt: real -> string)
    ensures AgentTotal(Analyze(rs, parse, fmt).agents) == Analyze(rs, parse, fmt).team.totalConversations
  {
    var a := Analyze(rs, parse, fmt);
    var names := AgentNames(rs);
    AgentsFollowNames(rs, parse, fmt);
    forall k | 0 <= k < |rs| ensures AgentOf(rs[k]) in names {
    }
    TotalIsGroupedCount(rs, a.agents, names);
    GroupsPartition(rs, names);
  }

  lemma {:induction false} TotalIsGroupedCount(rs: seq<Record>, agents: seq<AgentSummary>, names: seq<string>)
    requires |agents| == |names|
    requires forall i :: 0 <= i < |agents| ==> agents[i].totalConversations == |Filter(rs, ByAgent(names[i]))|
    ensures AgentTotal(agents) == GroupedCount(rs, names)
  {
    if |agents| > 0 {
      TotalIsGroupedCount(rs, agents[1..], names[1..]);
    }
  }
}
