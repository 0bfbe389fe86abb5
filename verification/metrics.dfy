/** The numeric and categorical reductions of the analysis: per-field scores
    and their means, the feedback distribution, and the grouping of
    conversations by representative. */
module Metrics {
  import opened Wrappers
  import opened Seqs
  import opened Text
  import opened Csv
  import opened StringOrder

  const ScoreField := "Score"
  const WritingScoreField := "Writing style (Score)"
  const AccuracyScoreField := "Accuracy (Score)"
  const EmpathyScoreField := "Empathy & Helpfulness (Score)"
  const FeedbackField := "Feedback Overall"
  const AgentField := "Representative Name"

  /** `row[field]`: None (JavaScript `undefined`) for a name the header lacked. */
  function Lookup(r: Record, field: string): (v: Option<string>)
    ensures v.Some? <==> field in r
    ensures v.Some? ==> v.value == r[field]
  {
    if field in r then Some(r[field]) else None
  }

  // ---------------------------------------------------------------- scores

  /** `parseFloat(row[field])` with NaN replaced by 0: a missing field or a
      value `parse` rejects scores 0. `parse` stands for `parseFloat`. */
  function ScoreOf(r: Record, field: string, parse: string -> Option<real>): (x: real)
    ensures Unparsed(r, field, parse) ==> x == 0.0
    ensures !Unparsed(r, field, parse) ==> field in r && Some(x) == parse(r[field])
  {
    match Lookup(r, field)
    case None => 0.0
    case Some(v) => parse(v).GetOr(0.0)
  }

  /** True when the record's field is missing or does not parse. */
  predicate Unparsed(r: Record, field: string, parse: string -> Option<real>)
  {
    Lookup(r, field).None? || parse(Lookup(r, field).value).None?
  }

  /** The per-record scores of a field, one per record, in record order. */
  function Scores(rs: seq<Record>, field: string, parse: string -> Option<real>): (xs: seq<real>)
    ensures |xs| == |rs|
    ensures forall i :: 0 <= i < |rs| ==> xs[i] == ScoreOf(rs[i], field, parse)
  {
    if |rs| == 0 then [] else Scores(rs[..|rs| - 1], field, parse) + [ScoreOf(rs[|rs| - 1], field, parse)]
  }

  /** `sum / length`; None stands for the NaN of an empty list. */
  function Mean(xs: seq<real>): (m: Option<real>)
    ensures m.None? <==> |xs| == 0
    ensures m.Some? ==> m.value * |xs| as real == Sum(xs)
  {
    if |xs| == 0 then None else Some(Sum(xs) / |xs| as real)
  }

  /** The mean of a field over a scope of records: every record of the scope
      is in the denominator, whether or not its value parsed. */
  function FieldMean(rs: seq<Record>, field: string, parse: string -> Option<real>): Option<real>
  {
    Mean(Scores(rs, field, parse))
  }

  /** A record that fails to parse adds nothing to the sum but one to the
      count, so it pulls the mean towards 0. */
  lemma UnparsedCountsInDenominator(rs: seq<Record>, r: Record, field: string, parse: string -> Option<real>)
    requires Unparsed(r, field, parse)
    ensures Sum(Scores(rs + [r], field, parse)) == Sum(Scores(rs, field, parse))
    ensures FieldMean(rs + [r], field, parse) == Some(Sum(Scores(rs, field, parse)) / (|rs| + 1) as real)
  {
    assert (rs + [r])[..|rs + [r]| - 1] == rs;
  }

  /** When every value that parses lies in [0, hi], so does the mean: a field
      on the 0-3 scale averages within [0, 3], the score within [0, 100]. */
  lemma AverageBounds(rs: seq<Record>, field: string, parse: string -> Option<real>, hi: real)
    requires |rs| > 0 && 0.0 <= hi
    requires forall i :: 0 <= i < |rs| ==> 0.0 <= ScoreOf(rs[i], field, parse) <= hi
    ensures FieldMean(rs, field, parse).Some?
    ensures 0.0 <= FieldMean(rs, field, parse).value <= hi
  {
    var xs := Scores(rs, field, parse);
    SumBounds(xs, hi);
    QuotientBounds(Sum(xs), |xs| as real, hi);
  }

  lemma QuotientBounds(sum: real, n: real, hi: real)
    requires n > 0.0 && 0.0 <= sum <= hi * n
    ensures 0.0 <= sum / n <= hi
  {
    assert sum / n * n == sum;
  }

  // -------------------------------------------------------------- feedback

  /** The four recognised values of `Feedback Overall`, in display order. */
  datatype Feedback = Poor | Average | Good | Excellent {

    /** The display name, `feedbackMapping`'s value. */
    function Name(): string
    {
      match this
      case Poor => "Poor"
      case Average => "Average"
      case Good => "Good"
      case Excellent => "Excellent"
    }

    /** The lower-case key of `feedbackMapping`. */
    function Key(): string
    {
      match this
      case Poor => "poor"
      case Average => "average"
      case Good => "good"
      case Excellent => "excellent"
    }
  }

  /** `allowedFeedback`. */
  const Buckets: seq<Feedback> := [Poor, Average, Good, Excellent]

  /** `row['Feedback Overall']?.toLowerCase()`. */
  function FeedbackKey(r: Record): Option<string>
  {
    match Lookup(r, FeedbackField)
    case None => None
    case Some(v) => Some(ToLower(v))
  }

  /** `feedbackMapping[rawFeedback]`: the bucket whose key the lower-cased
      value is, if any; anything else is unrecognised. */
  function Classify(r: Record): (b: Option<Feedback>)
    ensures b.Some? ==> FeedbackKey(r) == Some(b.value.Key())
    ensures b.None? ==> forall f: Feedback :: FeedbackKey(r) != Some(f.Key())
  {
    match FeedbackKey(r)
    case None => None
    case Some(k) =>
      if k == "poor" then Some(Poor)
      else if k == "average" then Some(Average)
      else if k == "good" then Some(Good)
      else if k == "excellent" then Some(Excellent)
      else None
  }

  /** The filter predicate "classified as bucket `b`". */
  function HasFeedback(b: Feedback): Record -> bool
  {
    r => Classify(r) == Some(b)
  }

  predicate Recognised(r: Record)
  {
    Classify(r).Some?
  }

  /** The `reduce` building `feedbackCounts`: one increment per record in the
      bucket its feedback maps to; every key present counts at least one. */
  function Tally(rs: seq<Record>): (counts: map<Feedback, nat>)
    ensures forall b: Feedback :: (if b in counts then counts[b] else 0) == |Filter(rs, HasFeedback(b))|
  {
    if |rs| == 0 then map[]
    else
      var acc := Tally(rs[..|rs| - 1]);
      match Classify(rs[|rs| - 1])
      case None => acc
      case Some(b) => acc[b := (if b in acc then acc[b] else 0) + 1]
  }

  /** One entry of `feedbackData`. */
  datatype FeedbackCount = FeedbackCount(name: string, count: nat)

  /** `feedbackData`: all four buckets in the fixed order Poor, Average, Good,
      Excellent, each with the number of records classified into it. */
  function Distribution(rs: seq<Record>): (d: seq<FeedbackCount>)
    ensures |d| == 4
    ensures forall i :: 0 <= i < 4 ==> d[i].name == Buckets[i].Name()
    ensures forall i :: 0 <= i < 4 ==> d[i].count == |Filter(rs, HasFeedback(Buckets[i]))|
  {
    var t := Tally(rs);
    seq(4, i requires 0 <= i < 4 => FeedbackCount(Buckets[i].Name(), if Buckets[i] in t then t[Buckets[i]] else 0))
  }

  function DistributionTotal(d: seq<FeedbackCount>): nat
  {
    if |d| == 0 then 0 else d[0].count + DistributionTotal(d[1..])
  }

  /** The bucket counts add up to the number of records with a recognised
      feedback value; unrecognised ones are dropped, so never more than the
      number of records. */
  lemma DistributionSums(rs: seq<Record>)
    ensures DistributionTotal(Distribution(rs)) == |Filter(rs, Recognised)|
    ensures DistributionTotal(Distribution(rs)) <= |rs|
  {
    var d := Distribution(rs);
    assert DistributionTotal(d) == d[0].count + d[1].count + d[2].count + d[3].count by {
      FourTotal(d);
    }
    BucketCountsSum(rs);
  }

  lemma FourTotal(d: seq<FeedbackCount>)
    requires |d| == 4
    ensures DistributionTotal(d) == d[0].count + d[1].count + d[2].count + d[3].count
  {
    var d1, d2, d3 := d[1..], d[2..], d[3..];
    assert d3[1..] == [];
    assert d2[1..] == d3 && d1[1..] == d2;
    assert DistributionTotal(d3) == d[3].count;
    assert DistributionTotal(d2) == d[2].count + d[3].count;
    assert DistributionTotal(d1) == d[1].count + d[2].count + d[3].count;
  }

  lemma {:induction false} BucketCountsSum(rs: seq<Record>)
    ensures |Filter(rs, HasFeedback(Poor))| + |Filter(rs, HasFeedback(Average))|
          + |Filter(rs, HasFeedback(Good))| + |Filter(rs, HasFeedback(Excellent))|
         == |Filter(rs, Recognised)|
  {
    if |rs| > 0 {
      BucketCountsSum(rs[..|rs| - 1]);
    }
  }

  // --------------------------------------------------------------- grouping

  /** `row['Representative Name']` as a key of the `agentData` object: a
      missing field is the key "undefined". */
  function AgentOf(r: Record): (name: string)
    ensures AgentField in r ==> name == r[AgentField]
    ensures AgentField !in r ==> name == "undefined"
  {
    if AgentField in r then r[AgentField] else "undefined"
  }

  /** The filter predicate "belongs to agent `name`". */
  function ByAgent(name: string): Record -> bool
  {
    r => AgentOf(r) == name
  }

  /** The list `agentData` holds for `name`, empty when there is none. */
  function GroupOf(groups: map<string, seq<Record>>, name: string): seq<Record>
  {
    if name in groups then groups[name] else []
  }

  /** `agentData[name].push(row)`, creating the list on first use. */
  function Push(groups: map<string, seq<Record>>, r: Record): (g: map<string, seq<Record>>)
    ensures g.Keys == groups.Keys + {AgentOf(r)}
    ensures GroupOf(g, AgentOf(r)) == GroupOf(groups, AgentOf(r)) + [r]
    ensures forall name :: name != AgentOf(r) ==> GroupOf(g, name) == GroupOf(groups, name)
  {
    groups[AgentOf(r) := GroupOf(groups, AgentOf(r)) + [r]]
  }

  /** What `agentData` holds after the records `rs`: a list for exactly the
      agents that occur, each list being that agent's records in order. */
  ghost predicate IsGrouping(rs: seq<Record>, groups: map<string, seq<Record>>)
  {
    && (forall name :: name in groups <==> exists i :: 0 <= i < |rs| && AgentOf(rs[i]) == name)
    && (forall name :: GroupOf(groups, name) == Filter(rs, ByAgent(name)))
  }

  /** The `forEach` filling `agentData`: each record is pushed onto the list
      of its agent, so every list holds exactly that agent's records, in
      record order, and there is a list for every agent that occurs. */
  function GroupBy(rs: seq<Record>): (groups: map<string, seq<Record>>)
    ensures forall name :: name in groups <==> exists i :: 0 <= i < |rs| && AgentOf(rs[i]) == name
    ensures forall name :: GroupOf(groups, name) == Filter(rs, ByAgent(name))
    ensures forall name :: name in groups ==> |groups[name]| > 0
  {
    if |rs| == 0 then map[]
    else
      var acc := GroupBy(rs[..|rs| - 1]);
      PushRecord(rs, acc);
      Push(acc, rs[|rs| - 1])
  }

  /** One step of the `forEach`: pushing a record onto its agent's list keeps
      the grouping exact. */
  lemma PushRecord(rs: seq<Record>, acc: map<string, seq<Record>>)
    requires |rs| > 0 && IsGrouping(rs[..|rs| - 1], acc)
    ensures IsGrouping(rs, Push(acc, rs[|rs| - 1]))
    ensures var groups := Push(acc, rs[|rs| - 1]); forall name :: name in groups ==> |groups[name]| > 0
  {
    var init, r := rs[..|rs| - 1], rs[|rs| - 1];
    var groups := Push(acc, r);
    PushRecordKeys(rs, init, r, acc);
    forall name ensures GroupOf(groups, name) == Filter(rs, ByAgent(name)) {
      PushName(rs, acc, name);
    }
    assert IsGrouping(rs, groups);
    GroupsNonEmpty(rs, groups);
  }

  /** In an exact grouping every list holds at least the record that made
      its key. */
  lemma GroupsNonEmpty(rs: seq<Record>, groups: map<string, seq<Record>>)
    requires IsGrouping(rs, groups)
    ensures forall name :: name in groups ==> |groups[name]| > 0
  {
    forall name | name in groups ensures |groups[name]| > 0 {
      var i :| 0 <= i < |rs| && AgentOf(rs[i]) == name;
      assert ByAgent(name)(rs[i]);
      assert rs[i] in Filter(rs, ByAgent(name));
      assert groups[name] == GroupOf(groups, name);
    }
  }

  /** The pushed record lands on its own agent's list only. */
  lemma PushName(rs: seq<Record>, acc: map<string, seq<Record>>, name: string)
    requires |rs| > 0 && GroupOf(acc, name) == Filter(rs[..|rs| - 1], ByAgent(name))
    ensures GroupOf(Push(acc, rs[|rs| - 1]), name) == Filter(rs, ByAgent(name))
  {
    var r := rs[|rs| - 1];
    assert Filter(rs, ByAgent(name))
        == Filter(rs[..|rs| - 1], ByAgent(name)) + (if AgentOf(r) == name then [r] else []);
  }

  lemma PushRecordKeys(rs: seq<Record>, init: seq<Record>, r: Record, acc: map<string, seq<Record>>)
    requires |rs| > 0 && init == rs[..|rs| - 1] && r == rs[|rs| - 1]
    requires forall name :: name in acc <==> exists i :: 0 <= i < |init| && AgentOf(init[i]) == name
    ensures forall name :: name in Push(acc, r) <==> exists i :: 0 <= i < |rs| && AgentOf(rs[i]) == name
  {
    forall name ensures name in Push(acc, r) <==> exists i :: 0 <= i < |rs| && AgentOf(rs[i]) == name {
      assert name in Push(acc, r) <==> name in acc || name == AgentOf(r);
      if exists i :: 0 <= i < |rs| && AgentOf(rs[i]) == name {
        var i :| 0 <= i < |rs| && AgentOf(rs[i]) == name;
        if i < |rs| - 1 {
          assert init[i] == rs[i];
        }
      }
      if name in acc {
        var i :| 0 <= i < |init| && AgentOf(init[i]) == name;
        assert rs[i] == init[i];
      }
      if name == AgentOf(r) {
        assert AgentOf(rs[|rs| - 1]) == name;
      }
    }
  }

  /** The agent names, distinct and in ascending order: `Object.entries`
      of `agentData` sorted by name. */
  function AgentNames(rs: seq<Record>): (names: seq<string>)
    ensures StrictlySorted(names)
    ensures forall name :: name in names <==> exists i :: 0 <= i < |rs| && AgentOf(rs[i]) == name
  {
    if |rs| == 0 then []
    else
      var init := rs[..|rs| - 1];
      assert forall i :: 0 <= i < |init| ==> init[i] == rs[i];
      Insert(AgentOf(rs[|rs| - 1]), AgentNames(init))
  }

  /** The number of records belonging to the listed agents. */
  function GroupedCount(rs: seq<Record>, names: seq<string>): nat
  {
    if |names| == 0 then 0 else |Filter(rs, ByAgent(names[0]))| + GroupedCount(rs, names[1..])
  }

  function NameCount(names: seq<string>, name: string): nat
  {
    if |names| == 0 then 0 else (if names[0] == name then 1 else 0) + NameCount(names[1..], name)
  }

  lemma {:induction false} GroupedCountStep(rs: seq<Record>, r: Record, names: seq<string>)
    ensures GroupedCount(rs + [r], names) == GroupedCount(rs, names) + NameCount(names, AgentOf(r))
  {
    if |names| > 0 {
      assert (rs + [r])[..|rs + [r]| - 1] == rs;
      GroupedCountStep(rs, r, names[1..]);
    }
  }

  lemma {:induction false} OccursOnce(names: seq<string>, name: string)
    requires StrictlySorted(names) && name in names
    ensures NameCount(names, name) == 1
  {
    SortedDistinct(names);
    if names[0] != name {
      OccursOnce(names[1..], name);
    } else {
      OccursNot(names[1..], name);
    }
  }

  lemma {:induction false} OccursNot(names: seq<string>, name: string)
    requires name !in names
    ensures NameCount(names, name) == 0
  {
    if |names| > 0 {
      OccursNot(names[1..], name);
    }
  }

  /** Every record lands in exactly one group: over distinct names that
      cover every agent, the group sizes add up to the number of records. */
  lemma {:induction false} GroupsPartition(rs: seq<Record>, names: seq<string>)
    requires StrictlySorted(names)
    requires forall i :: 0 <= i < |rs| ==> AgentOf(rs[i]) in names
    ensures GroupedCount(rs, names) == |rs|
  {
    if |rs| == 0 {
      EmptyGroups(names);
    } else {
      var init := rs[..|rs| - 1];
      var r := rs[|rs| - 1];
      assert rs == init + [r];
      GroupsPartition(init, names);
      GroupedCountStep(init, r, names);
      OccursOnce(names, AgentOf(r));
    }
  }

  lemma {:induction false} EmptyGroups(names: seq<string>)
    ensures GroupedCount([], names) == 0
  {
    if |names| > 0 {
      EmptyGroups(names[1..]);
    }
  }
}
