/** Completion payloads, the parsed summary with its dictionary form, dedup keys and the filesystem store. */
module Completion {
  import opened Text
  import opened PromptBudget
  import opened CompletionFields

  /** A payload dictionary: the keys the protocol knows, Missing where absent, and all other keys. */
  datatype Json = Json(
    status: Raw, agentType: Raw, workflowId: Raw, stepId: Raw, stepNum: Raw, summary: Raw, keyFindings: Raw,
    nextAgent: Raw, verdict: Raw, effort: Raw, commentMarkdown: Raw,
    alignmentScore: Raw, alignmentSummary: Raw, alignmentArtifacts: Raw, others: map<string, Raw>)

  /** d.get(key, default) */
  function Or(v: Raw, default: Raw): Raw {
    if v.Missing? then default else v
  }

  // ----- payload -----

  datatype Payload = Payload(
    status: string, agentType: string, workflowId: string, stepId: string, stepNum: nat, summary: string,
    keyFindings: seq<string>, nextAgent: string, verdict: string, effort: Effort, commentMarkdown: string,
    alignmentScore: Raw, alignmentSummary: Raw, alignmentArtifacts: Raw, others: map<string, Raw>)

  function OrElse(s: string, default: string): string {
    if s == "" then default else s
  }

  function Token(v: Raw, default: string, maxChars: nat): string {
    BudgetToken(Shown(Or(v, Str(default))), maxChars)
  }

  function BudgetSummary(lim: Limits, v: Raw): string {
    BudgetText(Shown(v), lim.summaryMax, Min(lim.contextMax, 700))
  }

  function BudgetVerdict(lim: Limits, v: Raw): string {
    BudgetText(Shown(v), lim.verdictMax, Min(lim.contextMax, 220))
  }

  /** _normalize_step_num */
  function StepNumber(v: Raw): nat {
    match AsInt(v)
    case Some(n) => if n > 0 then n else 0
    case None => 0
  }

  /** Any other key: only over-long strings are budgeted. */
  function BudgetExtra(lim: Limits, v: Raw): Raw {
    if v.Str? && |v.text| > lim.extraStringMax then
      Str(BudgetText(v.text, lim.extraStringMax, Min(lim.contextMax, 700)))
    else v
  }

  /** budget_completion_payload */
  function BudgetPayload(lim: Limits, d: Json): Payload {
    Payload(
      OrElse(Token(d.status, "complete", 32), "complete"),
      OrElse(Token(d.agentType, "unknown", 80), "unknown"),
      Token(d.workflowId, "", 160),
      Token(d.stepId, "", 120),
      StepNumber(d.stepNum),
      BudgetSummary(lim, d.summary),
      FindingsOf(lim, FindingItems(d.keyFindings)),
      Token(d.nextAgent, "", 80),
      BudgetVerdict(lim, d.verdict),
      EffortOf(lim, EffortEntries(d.effort)),
      BudgetMarkdown(lim, Shown(d.commentMarkdown)),
      BudgetExtra(lim, d.alignmentScore), BudgetExtra(lim, d.alignmentSummary), BudgetExtra(lim, d.alignmentArtifacts),
      map k | k in d.others :: BudgetExtra(lim, d.others[k]))
  }

  // ----- dictionaries of budgeted values -----

  function Texts(items: seq<string>): Raw {
    Lst(seq(|items|, i requires 0 <= i < |items| => Str(items[i])), "")
  }

  function TextEntries(d: Effort): Raw {
    Obj(seq(|d|, i requires 0 <= i < |d| => (d[i].0, Str(d[i].1))), "")
  }

  /** The printed form of a number is never read back, so it is left blank. */
  function Number(n: nat): Raw {
    Num(n as real, "")
  }

  /** The payload as the dictionary that is stored. */
  function Encode(p: Payload): Json {
    Json(Str(p.status), Str(p.agentType), Str(p.workflowId), Str(p.stepId), Number(p.stepNum), Str(p.summary),
         Texts(p.keyFindings), Str(p.nextAgent), Str(p.verdict), TextEntries(p.effort), Str(p.commentMarkdown),
         p.alignmentScore, p.alignmentSummary, p.alignmentArtifacts, p.others)
  }

  // ----- summary -----

  datatype CompletionSummary = CompletionSummary(
    status: string, agentType: string, workflowId: string, stepId: string, stepNum: nat, summary: string,
    keyFindings: seq<string>, nextAgent: string, verdict: string, effort: Effort, commentMarkdown: string,
    alignmentScore: Option<real>, alignmentSummary: Raw, alignmentArtifacts: seq<Raw>)

  /** CompletionSummary.from_dict; None where list() over the artifacts raises. */
  function FromDict(lim: Limits, d: Json): Option<CompletionSummary> {
    var p := BudgetPayload(lim, d);
    match AsList(d.alignmentArtifacts)
    case None => None
    case Some(artifacts) =>
      Some(CompletionSummary(
        p.status, p.agentType, p.workflowId, p.stepId, StepNumber(Number(p.stepNum)), p.summary,
        FindingsOf(lim, p.keyFindings), p.nextAgent, p.verdict, EffortOf(lim, p.effort), p.commentMarkdown,
        AsScore(d.alignmentScore), Or(d.alignmentSummary, Str("")), artifacts))
  }

  function FieldsOf(s: CompletionSummary): Payload {
    Payload(s.status, s.agentType, s.workflowId, s.stepId, s.stepNum, s.summary, s.keyFindings, s.nextAgent,
            s.verdict, s.effort, s.commentMarkdown, Missing, Missing, Missing, map[])
  }

  /** CompletionSummary.to_dict: the fields budgeted again, without an empty verdict or effort. */
  function ToDict(lim: Limits, s: CompletionSummary): Json {
    var d := Encode(BudgetPayload(lim, Encode(FieldsOf(s))));
    d.(verdict := if Truthy(d.verdict) then d.verdict else Missing,
       effort := if s.effort != [] then TextEntries(s.effort) else if Truthy(d.effort) then d.effort else Missing,
       alignmentScore := match s.alignmentScore case Some(score) => Num(score, "") case None => Missing,
       alignmentSummary := if Truthy(s.alignmentSummary) then s.alignmentSummary else Missing,
       alignmentArtifacts := if s.alignmentArtifacts != [] then Lst(s.alignmentArtifacts, "") else Missing)
  }

  /** A summary every field of which another budget pass leaves alone, as from_dict makes them. */
  ghost predicate Settled(lim: Limits, s: CompletionSummary) {
    && IsToken(s.status, 32) && s.status != ""
    && IsToken(s.agentType, 80) && s.agentType != ""
    && IsToken(s.workflowId, 160) && IsToken(s.stepId, 120) && IsToken(s.nextAgent, 80)
    && BudgetSummary(lim, Str(s.summary)) == s.summary
    && BudgetVerdict(lim, Str(s.verdict)) == s.verdict
    && BudgetMarkdown(lim, s.commentMarkdown) == s.commentMarkdown
    && FindingsOf(lim, s.keyFindings) == s.keyFindings
    && EffortOf(lim, s.effort) == s.effort
  }

  lemma FromDictSettled(lim: Limits, d: Json)
    requires FromDict(lim, d).Some?
    ensures Settled(lim, FromDict(lim, d).value)
  {
    hide BudgetToken, BudgetText, FindingsOf, EffortOf, BudgetMarkdown, StepNumber, AsList, AsScore, IsToken;
    BudgetTokenShape(Shown(Or(d.status, Str("complete"))), 32);
    BudgetTokenShape(Shown(Or(d.agentType, Str("unknown"))), 80);
    BudgetTokenShape(Shown(Or(d.workflowId, Str(""))), 160);
    BudgetTokenShape(Shown(Or(d.stepId, Str(""))), 120);
    BudgetTokenShape(Shown(Or(d.nextAgent, Str(""))), 80);
    DefaultTokens();
    BudgetTextIdempotent(Shown(d.summary), lim.summaryMax, Min(lim.contextMax, 700));
    BudgetTextIdempotent(Shown(d.verdict), lim.verdictMax, Min(lim.contextMax, 220));
    BudgetMarkdownIdempotent(lim, Shown(d.commentMarkdown));
    FindingsStableFromSecond(lim, FindingItems(d.keyFindings));
    EffortIdempotent(lim, EffortEntries(d.effort));
  }

  lemma DefaultTokens()
    ensures IsToken("complete", 32) && IsToken("unknown", 80)
  {
  }

  lemma TextsShown(items: seq<string>)
    ensures FindingItems(Texts(items)) == items
  {
    ShownText();
  }

  lemma EntriesShown(d: Effort)
    ensures EffortEntries(TextEntries(d)) == d
    ensures Truthy(TextEntries(d)) <==> d != []
  {
    ShownText();
  }

  lemma NumberRead(n: nat)
    ensures StepNumber(Number(n)) == n
  {
  }

  lemma MissingShown()
    ensures Shown(Missing) == "" && EffortEntries(Missing) == []
  {
  }

  lemma ShownText()
    ensures forall s: string :: Shown(Str(s)) == s
  {
  }

  /** Budgeting the fields of a settled summary changes none of them. */
  lemma FieldsUnchanged(lim: Limits, s: CompletionSummary)
    requires Settled(lim, s)
    ensures BudgetPayload(lim, Encode(FieldsOf(s))) == FieldsOf(s)
  {
    hide BudgetToken, BudgetText, FindingsOf, EffortOf, BudgetMarkdown, BudgetSummary, BudgetVerdict,
      StepNumber, FindingItems, EffortEntries, IsToken, Shown, Texts, TextEntries, Number;
    ShownText();
    TokenUnchanged(s.status, 32);
    TokenUnchanged(s.agentType, 80);
    TokenUnchanged(s.workflowId, 160);
    TokenUnchanged(s.stepId, 120);
    TokenUnchanged(s.nextAgent, 80);
    TextsShown(s.keyFindings);
    EntriesShown(s.effort);
    NumberRead(s.stepNum);
  }

  /** Budgeting a parsed summary's own dictionary reads back what the summary holds. */
  lemma ToDictRead(lim: Limits, s: CompletionSummary)
    requires Settled(lim, s)
    ensures var p := BudgetPayload(lim, ToDict(lim, s));
            p.(alignmentScore := Missing, alignmentSummary := Missing, alignmentArtifacts := Missing) == FieldsOf(s)
  {
    hide BudgetToken, BudgetText, FindingsOf, EffortOf, BudgetMarkdown, StepNumber, FindingItems, EffortEntries,
      IsToken, Shown, Texts, TextEntries, Number, Settled;
    FieldsUnchanged(lim, s);
    EntriesShown(s.effort);
    EntriesShown([]);
    MissingShown();
    ShownText();
  }

  /** What parsing keeps of a payload, field by field: each known key is read from its own slot within its budget. */
  lemma ParsedFields(lim: Limits, d: Json)
    requires FromDict(lim, d).Some?
    ensures var s := FromDict(lim, d).value;
            var status, agent, step := BudgetToken(Shown(d.status), 32), BudgetToken(Shown(d.agentType), 80),
                AsInt(d.stepNum);
            && s.status == (if status == "" then "complete" else status)
            && s.agentType == (if agent == "" then "unknown" else agent)
            && s.workflowId == BudgetToken(Shown(d.workflowId), 160)
            && s.stepId == BudgetToken(Shown(d.stepId), 120)
            && s.nextAgent == BudgetToken(Shown(d.nextAgent), 80)
            && s.stepNum == (if step.Some? && step.value > 0 then step.value else 0)
            && s.summary == BudgetText(Shown(d.summary), lim.summaryMax, Min(lim.contextMax, 700))
            && s.verdict == BudgetText(Shown(d.verdict), lim.verdictMax, Min(lim.contextMax, 220))
            && s.keyFindings == FindingsOf(lim, FindingsOf(lim, FindingItems(d.keyFindings)))
            && s.effort == EffortOf(lim, EffortEntries(d.effort))
            && s.commentMarkdown == BudgetMarkdown(lim, Shown(d.commentMarkdown))
    ensures var s := FromDict(lim, d).value;
            && s.alignmentScore == AsScore(d.alignmentScore)
            && s.alignmentSummary == (if d.alignmentSummary.Missing? then Str("") else d.alignmentSummary)
            && AsList(d.alignmentArtifacts) == Some(s.alignmentArtifacts)
  {
    hide BudgetToken, BudgetText, FindingsOf, EffortOf, BudgetMarkdown, AsList, AsScore, IsToken, AsInt, FindingItems,
      EffortEntries, Shown;
    DefaultTokens();
    TokenUnchanged("complete", 32);
    TokenUnchanged("unknown", 80);
    NothingToken();
    ShownText();
    MissingText();
    NumberRead(StepNumber(d.stepNum));
    EffortIdempotent(lim, EffortEntries(d.effort));
  }

  lemma MissingText()
    ensures Shown(Missing) == ""
  {
  }

  lemma NothingToken()
    ensures forall n: nat :: BudgetToken("", n) == ""
  {
  }

  /** What serialising writes of a settled summary: each field into its own slot, an empty verdict and effort left
      out. */
  lemma WrittenSlots(lim: Limits, s: CompletionSummary)
    requires Settled(lim, s)
    ensures var d := ToDict(lim, s);
            && d.status == Str(s.status) && d.agentType == Str(s.agentType) && d.workflowId == Str(s.workflowId)
            && d.stepId == Str(s.stepId) && d.stepNum == Num(s.stepNum as real, "") && d.summary == Str(s.summary)
            && d.nextAgent == Str(s.nextAgent) && d.commentMarkdown == Str(s.commentMarkdown)
            && d.verdict == (if s.verdict == "" then Missing else Str(s.verdict))
            && FindingItems(d.keyFindings) == s.keyFindings && EffortEntries(d.effort) == s.effort
            && (d.effort.Missing? <==> s.effort == []) && d.others == map[]
  {
    hide BudgetToken, BudgetText, FindingsOf, EffortOf, BudgetMarkdown, StepNumber, IsToken, Shown, FindingItems,
      EffortEntries, Settled, Texts, TextEntries;
    FieldsUnchanged(lim, s);
    TextsShown(s.keyFindings);
    EntriesShown(s.effort);
    EntriesShown([]);
    MissingShown();
  }

  /** Every settled summary, parsed or not, comes back from its dictionary. */
  lemma SettledRoundTrip(lim: Limits, s: CompletionSummary)
    requires Settled(lim, s)
    ensures FromDict(lim, ToDict(lim, s)) ==
            Some(if Truthy(s.alignmentSummary) then s else s.(alignmentSummary := Str("")))
  {
    hide BudgetPayload, ToDict, FindingsOf, EffortOf, AsScore, AsList, StepNumber, Number, BudgetToken, BudgetText,
      BudgetMarkdown, IsToken;
    ToDictRead(lim, s);
    NumberRead(s.stepNum);
    AlignmentRead(lim, s);
  }

  /** Serialising a parsed summary and parsing it again gives the same summary, except that an alignment
      summary which is falsy without being "" (null, 0, an empty list) comes back as "". */
  lemma RoundTrip(lim: Limits, d: Json)
    requires FromDict(lim, d).Some?
    ensures var s := FromDict(lim, d).value;
            var again := FromDict(lim, ToDict(lim, s));
            && again == Some(if Truthy(s.alignmentSummary) then s else s.(alignmentSummary := Str("")))
            && (again == Some(s) <==> Truthy(d.alignmentSummary) || d.alignmentSummary in {Missing, Str("")})
  {
    hide BudgetPayload, ToDict, FindingsOf, EffortOf, AsScore, AsList, StepNumber, Number, Settled;
    FromDictSettled(lim, d);
    SettledRoundTrip(lim, FromDict(lim, d).value);
  }

  lemma AlignmentRead(lim: Limits, s: CompletionSummary)
    ensures var d := ToDict(lim, s);
            && AsScore(d.alignmentScore) == s.alignmentScore
            && Or(d.alignmentSummary, Str("")) == (if Truthy(s.alignmentSummary) then s.alignmentSummary else Str(""))
            && AsList(d.alignmentArtifacts) == Some(s.alignmentArtifacts)
  {
    hide BudgetPayload, TextEntries, Encode;
  }

  // ----- dedup keys -----

  /** The four normalised parts of a dedup key. */
  datatype KeyParts = KeyParts(issue: string, workflow: string, step: string, agent: string) {
    function Text(): string {
      issue + ":" + (workflow + ":" + (step + ":" + agent))
    }
  }

  function AgentPart(agentType: string, payloadAgent: Raw): string {
    OrElse(BudgetToken(if agentType != "" then agentType else Shown(payloadAgent), 80), "unknown-agent")
  }

  function Parts(issue: string, agentType: string, d: Json): KeyParts {
    KeyParts(
      OrElse(BudgetToken(issue, 64), "unknown-issue"),
      OrElse(Token(d.workflowId, "", 160), "unknown-workflow"),
      OrElse(Token(d.stepId, "", 120), "unknown-step"),
      AgentPart(agentType, d.agentType))
  }

  /** build_completion_step_dedup_key */
  function StepDedupKey(issue: string, agentType: string, d: Json): string {
    Parts(issue, agentType, d).Text()
  }

  datatype DetectedCompletion = DetectedCompletion(filePath: string, issueNumber: string, summary: CompletionSummary) {
    function DedupKey(lim: Limits): string {
      StepDedupKey(issueNumber, summary.agentType, ToDict(lim, summary))
    }
  }

  /** Keys of different parts differ when issue, workflow and step hold no colon; the agent may. */
  lemma KeySeparates(a: KeyParts, b: KeyParts)
    requires ':' !in a.issue && ':' !in a.workflow && ':' !in a.step
    requires ':' !in b.issue && ':' !in b.workflow && ':' !in b.step
    requires a.Text() == b.Text()
    ensures a == b
  {
    ColonSplit(a.issue, a.workflow + ":" + (a.step + ":" + a.agent), b.issue,
        b.workflow + ":" + (b.step + ":" + b.agent));
    ColonSplit(a.workflow, a.step + ":" + a.agent, b.workflow, b.step + ":" + b.agent);
    ColonSplit(a.step, a.agent, b.step, b.agent);
  }

  /** So two payloads share a key exactly when issue, workflow, step and agent are the same as tokens, defaults
      included, as long as none of the first three holds a colon. */
  lemma PayloadKeysSeparate(i: string, a: string, d: Json, j: string, b: string, e: Json)
    requires ':' !in BudgetToken(i, 64) && ':' !in BudgetToken(j, 64)
    requires ':' !in BudgetToken(Shown(d.workflowId), 160) && ':' !in BudgetToken(Shown(e.workflowId), 160)
    requires ':' !in BudgetToken(Shown(d.stepId), 120) && ':' !in BudgetToken(Shown(e.stepId), 120)
    ensures StepDedupKey(i, a, d) == StepDedupKey(j, b, e) <==>
            && OrElse(BudgetToken(i, 64), "unknown-issue") == OrElse(BudgetToken(j, 64), "unknown-issue")
            && OrElse(BudgetToken(Shown(d.workflowId), 160), "unknown-workflow")
               == OrElse(BudgetToken(Shown(e.workflowId), 160), "unknown-workflow")
            && OrElse(BudgetToken(Shown(d.stepId), 120), "unknown-step")
               == OrElse(BudgetToken(Shown(e.stepId), 120), "unknown-step")
            && OrElse(BudgetToken(if a != "" then a else Shown(d.agentType), 80), "unknown-agent")
               == OrElse(BudgetToken(if b != "" then b else Shown(e.agentType), 80), "unknown-agent")
  {
    hide BudgetToken, Shown, Parts, KeyParts.Text;
    PartsRead(i, a, d);
    PartsRead(j, b, e);
    assert ':' !in "unknown-issue" && ':' !in "unknown-workflow" && ':' !in "unknown-step";
    if Parts(i, a, d).Text() == Parts(j, b, e).Text() {
      KeySeparates(Parts(i, a, d), Parts(j, b, e));
    }
  }

  lemma PartsRead(i: string, a: string, d: Json)
    ensures Parts(i, a, d) == KeyParts(
              OrElse(BudgetToken(i, 64), "unknown-issue"),
              OrElse(BudgetToken(Shown(d.workflowId), 160), "unknown-workflow"),
              OrElse(BudgetToken(Shown(d.stepId), 120), "unknown-step"),
              OrElse(BudgetToken(if a != "" then a else Shown(d.agentType), 80), "unknown-agent"))
  {
    hide BudgetToken, Shown;
    ShownText();
    MissingText();
  }

  /** Without that, two different tuples can share a key, whatever the other parts. */
  lemma KeyCollision(issue: string, w: string, s: string, t: string, agent: string)
    ensures var a, b := KeyParts(issue, w + ":" + s, t, agent), KeyParts(issue, w, s + ":" + t, agent);
            a != b && a.Text() == b.Text()
  {
    assert w + ":" + s != w by { assert |w + ":" + s| > |w|; }
    assert w + ":" + s + ":" + (t + ":" + agent) == w + ":" + (s + ":" + t + ":" + agent);
  }

  /** Budgeting a stored payload leaves its key fields alone. */
  lemma StoredKeyFields(lim: Limits, d: Json)
    ensures var p := BudgetPayload(lim, d);
            var q := BudgetPayload(lim, Encode(p));
            && p.agentType != ""
            && (q.workflowId, q.stepId, q.agentType) == (p.workflowId, p.stepId, p.agentType)
            && BudgetToken(p.agentType, 80) == p.agentType
            && BudgetToken(p.workflowId, 160) == p.workflowId
            && BudgetToken(p.stepId, 120) == p.stepId
  {
    hide BudgetToken, BudgetText, FindingsOf, EffortOf, BudgetMarkdown, StepNumber, IsToken, Shown, BudgetExtra, Texts,
         TextEntries;
    ShownText();
    DefaultTokens();
    BudgetTokenIdempotent(Shown(Or(d.workflowId, Str(""))), 160);
    BudgetTokenIdempotent(Shown(Or(d.stepId, Str(""))), 120);
    BudgetTokenIdempotent(Shown(Or(d.agentType, Str("unknown"))), 80);
    TokenUnchanged("unknown", 80);
  }

  // ----- filesystem store -----

  predicate IsIssueNumber(s: string) {
    s != "" && forall i :: 0 <= i < |s| ==> IsDigit(s[i])
  }

  /** One completions directory: the stored payload of each issue. */
  class CompletionStore {
    const lim: Limits
    var files: map<string, Json>

    constructor (lim: Limits)
      ensures this.lim == lim && files == map[]
    {
      this.lim := lim;
      files := map[];
    }

    /** CompletionStore.save on the filesystem: replaces the issue's payload by the budgeted one and returns a key. The
        completion a scan then finds for the issue has that key exactly when the agents agree. */
    method Save(issue: string, agentType: string, d: Json) returns (key: string)
      modifies this
      ensures files == old(files)[issue := Encode(BudgetPayload(lim, d))]
      ensures key == StepDedupKey(issue, agentType, files[issue])
      ensures var found := ReadBack(lim, files, issue);
              found.Some? ==> (found.value.DedupKey(lim) == key <==> SameAgentType(agentType, BudgetPayload(lim, d)))
    {
      hide BudgetPayload, Encode, ReadBack, StepDedupKey, DetectedCompletion.DedupKey, SameAgentType;
      var normalized := Encode(BudgetPayload(lim, d));
      files := files[issue := normalized];
      key := StepDedupKey(issue, agentType, normalized);
      if ReadBack(lim, files, issue).Some? {
        KeyAgreement(lim, files, issue, agentType, d);
      }
    }

    /** CompletionStore.scan for one issue: an all-digit issue with a readable payload is found, and its summary is one
        that no further budgeting changes. */
    method Scan(issue: string) returns (found: Option<DetectedCompletion>)
      ensures found == ReadBack(lim, files, issue)
      ensures found.Some? <==>
              && issue in files && issue != "" && (forall i :: 0 <= i < |issue| ==> '0' <= issue[i] <= '9')
              && AsList(files[issue].alignmentArtifacts).Some?
      ensures found.Some? ==> found.value.issueNumber == issue && Settled(lim, found.value.summary)
    {
      hide BudgetPayload, Settled, FromDict;
      found := None;
      if issue in files && IsIssueNumber(issue) {
        FoundIff(lim, files[issue]);
        var parsed := FromDict(lim, files[issue]);
        if parsed.Some? {
          found := Some(DetectedCompletion("completion_summary_" + issue + ".json", issue, parsed.value));
          FromDictSettled(lim, files[issue]);
        }
      }
    }
  }

  /** The agent argument is empty or normalises to the payload's own agent type. */
  predicate SameAgentType(agentType: string, p: Payload) {
    agentType == "" || OrElse(BudgetToken(agentType, 80), "unknown-agent") == p.agentType
  }

  lemma FoundIff(lim: Limits, d: Json)
    ensures FromDict(lim, d).Some? <==> AsList(d.alignmentArtifacts).Some?
  {
    hide BudgetPayload, AsList;
  }

  function ReadBack(lim: Limits, files: map<string, Json>, issue: string): Option<DetectedCompletion> {
    if issue in files && IsIssueNumber(issue) then
      match FromDict(lim, files[issue])
      case Some(s) => Some(DetectedCompletion("completion_summary_" + issue + ".json", issue, s))
      case None => None
    else None
  }

  /** The key a save returns is the dedup key of the completion read back for that issue exactly when the agent
      argument is empty or normalises to the payload's own agent type. */
  lemma KeyAgreement(lim: Limits, files: map<string, Json>, issue: string, agentType: string, d: Json)
    requires issue in files && files[issue] == Encode(BudgetPayload(lim, d))
    requires ReadBack(lim, files, issue).Some?
    ensures ReadBack(lim, files, issue).value.DedupKey(lim) == StepDedupKey(issue, agentType, files[issue]) <==>
            SameAgentType(agentType, BudgetPayload(lim, d))
  {
    hide BudgetToken, BudgetPayload, FromDict, ToDict, Encode;
    var p := BudgetPayload(lim, d);
    var c := ReadBack(lim, files, issue).value;
    ReadBackKeyFields(lim, d);
    KeyOfFields(issue, c.summary.agentType, ToDict(lim, c.summary), p);
    KeyOfFields(issue, agentType, Encode(p), p);
    SamePrefix(KeyPrefix(issue, p), AgentPart(c.summary.agentType, Str(p.agentType)),
        AgentPart(agentType, Str(p.agentType)));
  }

  /** Everything of a key but its agent. */
  function KeyPrefix(issue: string, p: Payload): string {
    OrElse(BudgetToken(issue, 64), "unknown-issue") + ":" + OrElse(p.workflowId, "unknown-workflow") + ":" +
    OrElse(p.stepId, "unknown-step") + ":"
  }

  lemma KeyOfFields(issue: string, agentType: string, d: Json, p: Payload)
    requires (d.workflowId, d.stepId, d.agentType) == (Str(p.workflowId), Str(p.stepId), Str(p.agentType))
    requires BudgetToken(p.workflowId, 160) == p.workflowId && BudgetToken(p.stepId, 120) == p.stepId
    ensures StepDedupKey(issue, agentType, d) == KeyPrefix(issue, p) + AgentPart(agentType, Str(p.agentType))
  {
    hide BudgetToken, AgentPart, OrElse;
    PartsOfFields(issue, agentType, d, p);
    var k := Parts(issue, agentType, d);
    assert k.Text() == k.issue + ":" + k.workflow + ":" + k.step + ":" + k.agent;
  }

  lemma PartsOfFields(issue: string, agentType: string, d: Json, p: Payload)
    requires (d.workflowId, d.stepId, d.agentType) == (Str(p.workflowId), Str(p.stepId), Str(p.agentType))
    requires BudgetToken(p.workflowId, 160) == p.workflowId && BudgetToken(p.stepId, 120) == p.stepId
    ensures Parts(issue, agentType, d)
         == KeyParts(OrElse(BudgetToken(issue, 64), "unknown-issue"), OrElse(p.workflowId, "unknown-workflow"),
                     OrElse(p.stepId, "unknown-step"), AgentPart(agentType, Str(p.agentType)))
  {
    hide BudgetToken, AgentPart, OrElse;
  }

  /** The summary read back from a stored payload, and its dictionary, carry the payload's key fields. */
  lemma ReadBackKeyFields(lim: Limits, d: Json)
    requires FromDict(lim, Encode(BudgetPayload(lim, d))).Some?
    ensures var p := BudgetPayload(lim, d);
            var s := FromDict(lim, Encode(p)).value;
            var e := ToDict(lim, s);
            && (e.workflowId, e.stepId, e.agentType) == (Str(p.workflowId), Str(p.stepId), Str(p.agentType))
            && (Encode(p).workflowId, Encode(p).stepId, Encode(p).agentType) == (e.workflowId, e.stepId, e.agentType)
            && s.agentType == p.agentType != ""
            && BudgetToken(p.agentType, 80) == p.agentType
            && BudgetToken(p.workflowId, 160) == p.workflowId && BudgetToken(p.stepId, 120) == p.stepId
  {
    hide BudgetToken, BudgetPayload, StepNumber, Shown, FindingsOf, EffortOf, Settled, ToDict, AsScore, AsList;
    StoredKeyFields(lim, d);
    FromDictSettled(lim, Encode(BudgetPayload(lim, d)));
    ToDictKeyFields(lim, FromDict(lim, Encode(BudgetPayload(lim, d))).value);
  }

  lemma ToDictKeyFields(lim: Limits, s: CompletionSummary)
    requires Settled(lim, s)
    ensures var d := ToDict(lim, s);
            && (d.workflowId, d.stepId, d.agentType) == (Str(s.workflowId), Str(s.stepId), Str(s.agentType))
            && BudgetToken(s.workflowId, 160) == s.workflowId
            && BudgetToken(s.stepId, 120) == s.stepId
  {
    FieldsUnchanged(lim, s);
    TokenUnchanged(s.workflowId, 160);
    TokenUnchanged(s.stepId, 120);
    hide BudgetPayload, BudgetToken, TextEntries;
  }

  lemma SamePrefix(prefix: string, x: string, y: string)
    ensures prefix + x == prefix + y <==> x == y
  {
    assert (prefix + x)[|prefix|..] == x && (prefix + y)[|prefix|..] == y;
  }

  /** A summary and what its own dictionary parses to have the same dedup key. */
  lemma RoundTripKeepsKey(lim: Limits, d: Json, path: string, issue: string)
    requires FromDict(lim, d).Some?
    ensures var s := FromDict(lim, d).value;
            var again := FromDict(lim, ToDict(lim, s));
            && again.Some?
            && DetectedCompletion(path, issue, again.value).DedupKey(lim)
                == DetectedCompletion(path, issue, s).DedupKey(lim)
  {
    hide FromDict, ToDict, Settled, BudgetToken;
    var s := FromDict(lim, d).value;
    RoundTrip(lim, d);
    FromDictSettled(lim, d);
    ToDictKeyFields(lim, s);
    FromDictSettled(lim, ToDict(lim, s));
    ToDictKeyFields(lim, FromDict(lim, ToDict(lim, s)).value);
  }
}
