/** Compliance gap analysis and report rendering: the keyword risk table, the
    clause-by-clause check of an answer against the PCI-DSS and ISO 27001
    clauses mapped to a policy section, and the lines of the Markdown report.
    The answers come from the query engine, given here as a function. */
module ReportGenerator {
  import opened Wrappers
  import opened Text

  // ---------------------------------------------------------------------
  // Audit priority

  /** The three audit priorities. */
  datatype Risk = High | Medium | Low

  /** The priority as the report prints it. */
  function RiskLabel(r: Risk): string {
    match r
    case High => "High"
    case Medium => "Medium"
    case Low => "Low"
  }

  /** `RISK_LEVELS`, in the order of its literal. */
  const RiskLevels: seq<(string, Risk)> := [
    ("access control", High),
    ("encryption", High),
    ("incident response", High),
    ("vulnerability", High),
    ("logging", Medium),
    ("monitoring", Medium),
    ("supplier", Medium),
    ("data retention", Low),
    ("physical security", Low),
    ("business continuity", Medium),
    ("password", High)
  ]

  predicate KeywordIn(query: string, keyword: string) {
    Contains(LowerStr(query), keyword)
  }

  /** `assign_risk_level`: the risk of the first keyword of the table that
      occurs in the lower-cased query, Low when none does. */
  function AssignRiskLevel(query: string): (risk: Risk)
    ensures (forall i :: 0 <= i < |RiskLevels| ==> !KeywordIn(query, RiskLevels[i].0)) ==> risk == Low
    ensures (exists i :: 0 <= i < |RiskLevels| && KeywordIn(query, RiskLevels[i].0)) ==>
      exists i :: (0 <= i < |RiskLevels| && KeywordIn(query, RiskLevels[i].0)
        && (forall j :: 0 <= j < i ==> !KeywordIn(query, RiskLevels[j].0))
        && risk == RiskLevels[i].1)
  {
    match FirstWhere(RiskLevels, (e: (string, Risk)) => KeywordIn(query, e.0))
    case None => Low
    case Some(i) => RiskLevels[i].1
  }

  /** A keyword is absent when one of its characters is. */
  lemma KeywordAbsent(query: string, keyword: string, k: nat)
    requires k < |keyword| && keyword[k] !in LowerStr(query)
    ensures !KeywordIn(query, keyword)
  {
    if KeywordIn(query, keyword) {
      ContainsChars(LowerStr(query), keyword);
    }
  }

  lemma KeywordPresent(query: string, keyword: string, at: nat)
    requires at + |keyword| <= |query| && LowerStr(query)[at..at + |keyword|] == keyword
    ensures KeywordIn(query, keyword)
  {
    ContainsAt(LowerStr(query), keyword, at);
  }

  /** The risk is that of keyword `i` when it is the first keyword present. */
  lemma RiskOfFirstKeyword(q: string, i: nat)
    requires i < |RiskLevels| && KeywordIn(q, RiskLevels[i].0)
    requires forall j :: 0 <= j < i ==> !KeywordIn(q, RiskLevels[j].0)
    ensures AssignRiskLevel(q) == RiskLevels[i].1
  {
    var p := (e: (string, Risk)) => KeywordIn(q, e.0);
    assert p(RiskLevels[i]);
    assert forall j :: 0 <= j < i ==> !p(RiskLevels[j]);
    FirstWhereUnique(RiskLevels, p, i);
  }

  /** A query that mentions passwords is not always High: "logging" comes
      earlier in the table, so "password logging", in any letter case, is Medium. */
  lemma PasswordLoggingIsMedium(q: string)
    requires LowerStr(q) == "password logging"
    ensures AssignRiskLevel(q) == Medium
  {
    NoHighKeyword(q);
    KeywordPresent(q, "logging", 9);
    assert RiskLevels[4].0 == "logging";
    RiskOfFirstKeyword(q, 4);
  }

  /** None of the four High keywords that precede "logging" occurs in "password logging". */
  lemma NoHighKeyword(q: string)
    requires LowerStr(q) == "password logging"
    ensures forall j :: 0 <= j < 4 ==> !KeywordIn(q, RiskLevels[j].0)
  {
    PasswordLoggingLacks(q);
    var lower := LowerStr(q);
    assert "access control"[1] == 'c' && 'c' !in lower;
    KeywordAbsent(q, "access control", 1);
    assert "encryption"[0] == 'e' && 'e' !in lower;
    KeywordAbsent(q, "encryption", 0);
    assert "incident response"[2] == 'c';
    KeywordAbsent(q, "incident response", 2);
    assert "vulnerability"[0] == 'v' && 'v' !in lower;
    KeywordAbsent(q, "vulnerability", 0);
    var high := RiskLevels[..4];
    assert high == [("access control", High), ("encryption", High), ("incident response", High), ("vulnerability", High)];
    forall j | 0 <= j < 4 ensures !KeywordIn(q, RiskLevels[j].0) {
      assert RiskLevels[j] == high[j];
    }
  }

  lemma PasswordLoggingLacks(q: string)
    requires LowerStr(q) == "password logging"
    ensures 'c' !in LowerStr(q) && 'e' !in LowerStr(q) && 'v' !in LowerStr(q)
  {
  }

  // ---------------------------------------------------------------------
  // Compliance mapping and verdicts

  /** One clause object. A clause without a "description" reads as an empty
      description; `id` is its "clause" field, None when absent. */
  datatype Clause = Clause(id: Option<string>, description: string)

  /** One entry of `mappings`; absent fields read as "" and []. */
  datatype ComplianceMapping = ComplianceMapping(policySection: string, pciDss: seq<Clause>, iso27001: seq<Clause>)

  datatype Status = Compliant | PartiallyCompliant | NonCompliant | Unknown

  /** The status string written to the report. */
  function StatusLabel(s: Status): (text: string)
    ensures text in {"Compliant", "Partially Compliant", "Non-Compliant", "Unknown"}
    ensures text == "Unknown" <==> s == Unknown
  {
    match s
    case Compliant => "Compliant"
    case PartiallyCompliant => "Partially Compliant"
    case NonCompliant => "Non-Compliant"
    case Unknown => "Unknown"
  }

  /** The tuple `(status, gaps, pci_gaps, iso_gaps)`. */
  datatype Verdict = Verdict(status: Status, gaps: seq<string>, pciGaps: seq<string>, isoGaps: seq<string>)

  const MappingNotFound := "Compliance mapping not found"
  const SectionNotFound := "Section not found in compliance mapping"
  /** `clause['clause']` on a clause without that field raises KeyError,
      which nothing in the report generator catches. */
  const MissingClauseId := "KeyError: 'clause'"

  const PciDss := "PCI-DSS"
  const Iso27001 := "ISO 27001"

  /** A clause is a gap when its lower-cased description is non-empty and not
      a substring of the lower-cased response. */
  predicate HasGap(response: string, c: Clause) {
    c.description != [] && !Contains(LowerStr(response), LowerStr(c.description))
  }

  /** The finding text, with the description in its original case. */
  function GapText(framework: string, c: Clause): string
    requires c.id.Some?
  {
    framework + " " + c.id.value + ": Missing " + c.description
  }

  /** The gap texts the loop over `clauses` appends, or None when it reaches
      a gap clause without an id. */
  function FrameworkGaps(framework: string, response: string, clauses: seq<Clause>): Option<seq<string>>
    decreases |clauses|
  {
    if |clauses| == 0 then Some([])
    else
      match FrameworkGaps(framework, response, clauses[..|clauses| - 1])
      case None => None
      case Some(gs) =>
        var c := clauses[|clauses| - 1];
        if !HasGap(response, c) then Some(gs)
        else if c.id.None? then None
        else Some(gs + [GapText(framework, c)])
  }

  /** The status rule on the number of gaps and of clauses. */
  function StatusOf(gapCount: nat, total: nat): Status {
    if gapCount == 0 then Compliant
    else if gapCount < total then PartiallyCompliant
    else NonCompliant
  }

  /** The verdict for the mapping entry that matched. */
  function MappingVerdict(response: string, m: ComplianceMapping): Result<Verdict, string> {
    match FrameworkGaps(PciDss, response, m.pciDss)
    case None => Failure(MissingClauseId)
    case Some(pci) =>
      match FrameworkGaps(Iso27001, response, m.iso27001)
      case None => Failure(MissingClauseId)
      case Some(iso) =>
        Success(Verdict(StatusOf(|pci + iso|, |m.pciDss| + |m.iso27001|), pci + iso, pci, iso))
  }

  predicate SectionMatches(m: ComplianceMapping, section: string) {
    StartsWith(m.policySection, section)
  }

  /** What `analyze_compliance(response, section, mappings)` returns. */
  function Analysis(response: string, section: string, mappings: seq<ComplianceMapping>): Result<Verdict, string> {
    if |mappings| == 0 then Success(Verdict(Unknown, [MappingNotFound], [], []))
    else
      match FirstWhere(mappings, (m: ComplianceMapping) => SectionMatches(m, section))
      case None => Success(Verdict(Unknown, [SectionNotFound], [], []))
      case Some(i) => MappingVerdict(response, mappings[i])
  }

  /** `analyze_compliance`. */
  method AnalyzeCompliance(response: string, section: string, mappings: seq<ComplianceMapping>)
    returns (r: Result<Verdict, string>)
    ensures r == Analysis(response, section, mappings)
  {
    if |mappings| == 0 {
      return Success(Verdict(Unknown, [MappingNotFound], [], []));
    }
    for i := 0 to |mappings|
      invariant forall j :: 0 <= j < i ==> !SectionMatches(mappings[j], section)
    {
      var mapping := mappings[i];
      if StartsWith(mapping.policySection, section) {
        r := CheckClauses(response, mapping);
        return;
      }
    }
    return Success(Verdict(Unknown, [SectionNotFound], [], []));
  }

  /** The body of the matching branch of `analyze_compliance`: the two clause
      loops and the status rule. */
  method CheckClauses(response: string, mapping: ComplianceMapping) returns (r: Result<Verdict, string>)
    ensures r == MappingVerdict(response, mapping)
  {
    var pciGaps := CollectGaps(PciDss, response, mapping.pciDss);
    if pciGaps.None? {
      return Failure(MissingClauseId);
    }
    var isoGaps := CollectGaps(Iso27001, response, mapping.iso27001);
    if isoGaps.None? {
      return Failure(MissingClauseId);
    }
    var gaps := pciGaps.value + isoGaps.value;
    var status;
    if gaps == [] {
      status := Compliant;
    } else if |gaps| < |mapping.pciDss| + |mapping.iso27001| {
      status := PartiallyCompliant;
    } else {
      status := NonCompliant;
    }
    r := Success(Verdict(status, gaps, pciGaps.value, isoGaps.value));
  }

  /** One framework's clause loop: a gap line for every clause whose description
      the response does not mention, or `None` where such a clause has no id
      (the `KeyError` that ends the analysis). */
  method CollectGaps(framework: string, response: string, clauses: seq<Clause>) returns (found: Option<seq<string>>)
    ensures found == FrameworkGaps(framework, response, clauses)
  {
    var gaps: seq<string> := [];
    for k := 0 to |clauses|
      invariant FrameworkGaps(framework, response, clauses[..k]) == Some(gaps)
    {
      assert clauses[..k + 1][..k] == clauses[..k];
      var clause := clauses[k];
      var desc := LowerStr(clause.description);
      if desc != [] && !Contains(LowerStr(response), desc) {
        if clause.id.None? {
          FailureSticks(framework, response, clauses, k + 1);
          return None;
        }
        gaps := gaps + [framework + " " + clause.id.value + ": Missing " + clause.description];
      }
    }
    assert clauses[..|clauses|] == clauses;
    found := Some(gaps);
  }

  lemma {:induction false} FailureSticks(framework: string, response: string, clauses: seq<Clause>, k: nat)
    requires k <= |clauses| && FrameworkGaps(framework, response, clauses[..k]).None?
    ensures FrameworkGaps(framework, response, clauses).None?
    decreases |clauses| - k
  {
    if k < |clauses| {
      assert clauses[..k + 1][..k] == clauses[..k];
      FailureSticks(framework, response, clauses, k + 1);
    } else {
      assert clauses[..k] == clauses;
    }
  }

  // Properties of the analysis

  /** The gaps of one framework are, in clause order, the findings of exactly
      the clauses that are gaps: the k-th finding belongs to the k-th gap
      clause, and a clause has a finding iff it is a gap. The loop fails only
      when a gap clause has no id. Every finding starts with the framework name. */
  lemma {:induction false} FrameworkGapsSpec(framework: string, response: string, clauses: seq<Clause>)
    ensures var r := FrameworkGaps(framework, response, clauses);
      var ps := Positions(clauses, (c: Clause) => HasGap(response, c));
      && (r.Some? <==> forall i :: 0 <= i < |clauses| && HasGap(response, clauses[i]) ==> clauses[i].id.Some?)
      && (r.Some? ==> |r.value| == |ps|)
      && (r.Some? ==> forall k :: 0 <= k < |ps| ==>
            (ps[k] < |clauses| && clauses[ps[k]].id.Some? && r.value[k] == GapText(framework, clauses[ps[k]])))
    decreases |clauses|
  {
    var p := (c: Clause) => HasGap(response, c);
    if |clauses| > 0 {
      var n := |clauses| - 1;
      var init := clauses[..n];
      FrameworkGapsSpec(framework, response, init);
      var psInit := Positions(init, p);
      PositionsBound(init, p);
      assert forall k :: 0 <= k < |psInit| ==> init[psInit[k]] == clauses[psInit[k]];
      assert forall i :: 0 <= i < n ==> init[i] == clauses[i];
    }
  }

  lemma {:induction false} PositionsBound<T>(s: seq<T>, p: T -> bool)
    ensures forall k :: 0 <= k < |Positions(s, p)| ==> Positions(s, p)[k] < |s|
    decreases |s|
  {
    if |s| > 0 {
      PositionsBound(s[..|s| - 1], p);
    }
  }

  /** Each finding names its framework. */
  lemma {:induction false} GapsNameFramework(framework: string, response: string, clauses: seq<Clause>)
    requires FrameworkGaps(framework, response, clauses).Some?
    ensures forall g :: g in FrameworkGaps(framework, response, clauses).value ==> StartsWith(g, framework + " ")
    decreases |clauses|
  {
    if |clauses| > 0 {
      var init := clauses[..|clauses| - 1];
      GapsNameFramework(framework, response, init);
      var c := clauses[|clauses| - 1];
      if HasGap(response, c) {
        var g := GapText(framework, c);
        assert g[..|framework + " "|] == framework + " ";
      }
    }
  }

  lemma {:induction false} FrameworkGapsLength(framework: string, response: string, clauses: seq<Clause>)
    ensures FrameworkGaps(framework, response, clauses).Some? ==> |FrameworkGaps(framework, response, clauses).value| <= |clauses|
    decreases |clauses|
  {
    if |clauses| > 0 {
      FrameworkGapsLength(framework, response, clauses[..|clauses| - 1]);
    }
  }

  /** The status rule: with no more gaps than clauses, Compliant iff there
      are no gaps, Partially Compliant iff some but fewer than all clauses are
      gaps, Non-Compliant iff every clause is a gap and there is at least one. */
  lemma StatusRule(gapCount: nat, total: nat)
    requires gapCount <= total
    ensures StatusOf(gapCount, total) == Compliant <==> gapCount == 0
    ensures StatusOf(gapCount, total) == PartiallyCompliant <==> 0 < gapCount < total
    ensures StatusOf(gapCount, total) == NonCompliant <==> 0 < gapCount == total
    ensures StatusOf(gapCount, total) != Unknown
  {
  }

  /** A verdict for a matched section: `gaps` is the PCI-DSS findings followed
      by the ISO 27001 findings, there are no more of them than clauses, and
      the status follows the rule above. */
  lemma MatchedVerdict(response: string, m: ComplianceMapping)
    requires MappingVerdict(response, m).Success?
    ensures var v := MappingVerdict(response, m).value;
      var total := |m.pciDss| + |m.iso27001|;
      && v.gaps == v.pciGaps + v.isoGaps
      && |v.gaps| <= total
      && (v.status == Compliant <==> |v.gaps| == 0)
      && (v.status == PartiallyCompliant <==> 0 < |v.gaps| < total)
      && (v.status == NonCompliant <==> 0 < |v.gaps| == total)
      && v.status != Unknown
      && (forall g :: g in v.pciGaps ==> StartsWith(g, PciDss + " "))
      && (forall g :: g in v.isoGaps ==> StartsWith(g, Iso27001 + " "))
  {
    FrameworkGapsLength(PciDss, response, m.pciDss);
    FrameworkGapsLength(Iso27001, response, m.iso27001);
    GapsNameFramework(PciDss, response, m.pciDss);
    GapsNameFramework(Iso27001, response, m.iso27001);
    var v := MappingVerdict(response, m).value;
    StatusRule(|v.gaps|, |m.pciDss| + |m.iso27001|);
  }

  /** The verdict is Unknown exactly when there is no mapping, or no mapping
      section starts with the requested section; the first that does decides. */
  lemma AnalysisCases(response: string, section: string, mappings: seq<ComplianceMapping>)
    ensures |mappings| == 0 ==> Analysis(response, section, mappings) == Success(Verdict(Unknown, [MappingNotFound], [], []))
    ensures |mappings| > 0 && (forall i :: 0 <= i < |mappings| ==> !SectionMatches(mappings[i], section))
      ==> Analysis(response, section, mappings) == Success(Verdict(Unknown, [SectionNotFound], [], []))
    ensures forall i :: (0 <= i < |mappings| && SectionMatches(mappings[i], section)
      && (forall j :: 0 <= j < i ==> !SectionMatches(mappings[j], section))
      ==> Analysis(response, section, mappings) == MappingVerdict(response, mappings[i]))
    ensures Analysis(response, section, mappings).Success? && Analysis(response, section, mappings).value.status == Unknown
      <==> |mappings| == 0 || (forall i :: 0 <= i < |mappings| ==> !SectionMatches(mappings[i], section))
  {
    var p := (m: ComplianceMapping) => SectionMatches(m, section);
    var r := FirstWhere(mappings, p);
    forall i | (0 <= i < |mappings| && SectionMatches(mappings[i], section)
      && (forall j :: 0 <= j < i ==> !SectionMatches(mappings[j], section)))
      ensures Analysis(response, section, mappings) == MappingVerdict(response, mappings[i])
    {
      assert p(mappings[i]);
      assert r.Some? && r.value == i;
    }
    if |mappings| > 0 && r.Some? && MappingVerdict(response, mappings[r.value]).Success? {
      MatchedVerdict(response, mappings[r.value]);
    }
  }

  /** A clause with an id whose description the response does not mention
      is reported under its framework and in `gaps`, and the section is then
      not Compliant. */
  lemma MissingClauseReported(response: string, m: ComplianceMapping, k: nat)
    requires k < |m.pciDss| && m.pciDss[k].id.Some? && HasGap(response, m.pciDss[k])
    requires MappingVerdict(response, m).Success?
    ensures var v := MappingVerdict(response, m).value;
      && GapText(PciDss, m.pciDss[k]) in v.pciGaps
      && GapText(PciDss, m.pciDss[k]) in v.gaps
      && v.status != Compliant
  {
    var p := (c: Clause) => HasGap(response, c);
    FrameworkGapsSpec(PciDss, response, m.pciDss);
    FilterPositions(m.pciDss, p);
    var ps := Positions(m.pciDss, p);
    assert k in ps;
    var j :| 0 <= j < |ps| && ps[j] == k;
    var v := MappingVerdict(response, m).value;
    assert v.pciGaps[j] == GapText(PciDss, m.pciDss[k]);
    assert v.gaps == v.pciGaps + v.isoGaps;
  }

  /** A clause without a description is never a gap, yet it still counts
      toward the total: a mapping whose clauses all lack descriptions is
      Compliant whatever the response says. */
  lemma {:induction false} NoDescriptionNoGap(framework: string, response: string, clauses: seq<Clause>)
    requires forall i :: 0 <= i < |clauses| ==> clauses[i].description == []
    ensures FrameworkGaps(framework, response, clauses) == Some([])
    decreases |clauses|
  {
    if |clauses| > 0 {
      NoDescriptionNoGap(framework, response, clauses[..|clauses| - 1]);
    }
  }

  lemma UndescribedMappingCompliant(response: string, m: ComplianceMapping)
    requires forall i :: 0 <= i < |m.pciDss| ==> m.pciDss[i].description == []
    requires forall i :: 0 <= i < |m.iso27001| ==> m.iso27001[i].description == []
    ensures MappingVerdict(response, m) == Success(Verdict(Compliant, [], [], []))
  {
    NoDescriptionNoGap(PciDss, response, m.pciDss);
    NoDescriptionNoGap(Iso27001, response, m.iso27001);
  }

  /** The section prefix test runs from the mapping's side: a query for
      section "4.2" is answered with the clauses of a mapping for "4.20". */
  lemma ShorterSectionMatchesLonger(response: string, clauses: seq<Clause>)
    ensures Analysis(response, "4.2", [ComplianceMapping("4.20", clauses, [])])
      == MappingVerdict(response, ComplianceMapping("4.20", clauses, []))
  {
    assert SectionMatches(ComplianceMapping("4.20", clauses, []), "4.2");
  }

  /** ... and a query for a subsection such as "4.4.1" finds no mapping for "4.4". */
  lemma SubsectionNotFound(response: string, clauses: seq<Clause>)
    ensures Analysis(response, "4.4.1", [ComplianceMapping("4.4", clauses, [])])
      == Success(Verdict(Unknown, [SectionNotFound], [], []))
  {
  }

  // ---------------------------------------------------------------------
  // Report

  /** One entry of the fixed query list. */
  datatype AuditQuery = AuditQuery(query: string, section: string)

  const AuditQueries: seq<AuditQuery> := [
    AuditQuery("What are the access control policies?", "4.4"),
    AuditQuery("How does the policy address encryption?", "4.34"),
    AuditQuery("What are the vulnerability management procedures?", "4.16"),
    AuditQuery("What is the incident response plan?", "4.33"),
    AuditQuery("How are passwords managed?", "4.5"),
    AuditQuery("What are the logging and monitoring policies?", "4.12"),
    AuditQuery("What is the data retention policy?", "4.20"),
    AuditQuery("How is supplier risk managed?", "4.29"),
    AuditQuery("What is the physical security policy?", "4.7"),
    AuditQuery("How does the organization ensure business continuity?", "4.25")
  ]

  const ReportHeader: seq<string> := ["# Compliance Gap Analysis Report\n", "## Summary\n"]
  const NoneLine := "- None\n"

  /** The lines under a framework heading. */
  function GapLines(gaps: seq<string>): seq<string> {
    if gaps == [] then [NoneLine]
    else seq(|gaps|, k requires 0 <= k < |gaps| => "- " + gaps[k] + "\n")
  }

  /** The five labelled lines that open the block of one query, and the
      PCI-DSS heading. */
  function QueryHead(q: AuditQuery, response: string, v: Verdict, risk: Risk): seq<string> {
    [ "### Query: " + q.query + "\n",
      "**Policy Section**: " + q.section + "\n",
      "**Response**: " + response + "\n",
      "**Compliance Status**: " + StatusLabel(v.status) + "\n",
      "**Audit Priority (Risk Level)**: " + RiskLabel(risk) + "\n",
      "**PCI-DSS Gaps**:\n" ]
  }

  /** The lines appended for one query. */
  function QueryBlock(q: AuditQuery, response: string, v: Verdict, risk: Risk): seq<string> {
    QueryHead(q, response, v, risk) + GapLines(v.pciGaps) + ["**ISO 27001 Gaps**:\n"] + GapLines(v.isoGaps) + ["\n"]
  }

  /** The block of one query, or the error that aborts the report. */
  function BlockFor(q: AuditQuery, answer: string -> string, mappings: seq<ComplianceMapping>): Result<seq<string>, string> {
    match Analysis(answer(q.query), q.section, mappings)
    case Failure(e) => Failure(e)
    case Success(v) => Success(QueryBlock(q, answer(q.query), v, AssignRiskLevel(q.query)))
  }

  /** The blocks of the given queries, in order, or the first error. */
  function ReportBody(queries: seq<AuditQuery>, answer: string -> string, mappings: seq<ComplianceMapping>): Result<seq<string>, string> {
    Concatenated(queries, (q: AuditQuery) => BlockFor(q, answer, mappings))
  }

  /** `report_content` after the loop over `queries`. `answer` stands for
      `query_knowledge_base`, which turns every failure into an answer text. */
  method BuildReportLines(queries: seq<AuditQuery>, answer: string -> string, mappings: seq<ComplianceMapping>)
    returns (r: Result<seq<string>, string>)
    ensures r.Success? <==> ReportBody(queries, answer, mappings).Success?
    ensures r.Success? ==> r.value == ReportHeader + ReportBody(queries, answer, mappings).value
    ensures r.Failure? ==> r.error == ReportBody(queries, answer, mappings).error
  {
    var reportContent := ReportHeader;
    for i := 0 to |queries|
      invariant ReportBody(queries[..i], answer, mappings).Success?
      invariant reportContent == ReportHeader + ReportBody(queries[..i], answer, mappings).value
    {
      ghost var body := ReportBody(queries[..i], answer, mappings).value;
      var q := queries[i];
      var response := answer(q.query);
      var analysis := AnalyzeCompliance(response, q.section, mappings);
      if analysis.Failure? {
        ConcatenatedStep(queries, (q: AuditQuery) => BlockFor(q, answer, mappings), i);
        ConcatenatedFailureSticks(queries, (q: AuditQuery) => BlockFor(q, answer, mappings), i + 1);
        return Failure(analysis.error);
      }
      var verdict := analysis.value;
      var risk := AssignRiskLevel(q.query);
      ghost var block := QueryBlock(q, response, verdict, risk);
      assert BlockFor(q, answer, mappings) == Success(block);
      ConcatenatedStep(queries, (q: AuditQuery) => BlockFor(q, answer, mappings), i);
      reportContent := AppendQueryBlock(reportContent, q, response, verdict, risk);
      AppendAssociates(ReportHeader, body, block);
    }
    assert queries[..|queries|] == queries;
    r := Success(reportContent);
  }

  /** The appends of one iteration of the loop over `queries`. */
  method AppendQueryBlock(lines: seq<string>, q: AuditQuery, response: string, verdict: Verdict, risk: Risk)
    returns (r: seq<string>)
    ensures r == lines + QueryBlock(q, response, verdict, risk)
  {
    r := lines + ["### Query: " + q.query + "\n"];
    r := r + ["**Policy Section**: " + q.section + "\n"];
    r := r + ["**Response**: " + response + "\n"];
    r := r + ["**Compliance Status**: " + StatusLabel(verdict.status) + "\n"];
    r := r + ["**Audit Priority (Risk Level)**: " + RiskLabel(risk) + "\n"];
    r := r + ["**PCI-DSS Gaps**:\n"];
    ghost var block := QueryHead(q, response, verdict, risk);
    assert r == lines + block;
    r := AppendGapLines(r, verdict.pciGaps);
    AppendAssociates(lines, block, GapLines(verdict.pciGaps));
    block := block + GapLines(verdict.pciGaps);
    r := r + ["**ISO 27001 Gaps**:\n"];
    AppendAssociates(lines, block, ["**ISO 27001 Gaps**:\n"]);
    block := block + ["**ISO 27001 Gaps**:\n"];
    r := AppendGapLines(r, verdict.isoGaps);
    AppendAssociates(lines, block, GapLines(verdict.isoGaps));
    block := block + GapLines(verdict.isoGaps);
    r := r + ["\n"];
    AppendAssociates(lines, block, ["\n"]);
  }

  /** The `if gaps: for gap in gaps: append ... else: append "- None"` step. */
  method AppendGapLines(lines: seq<string>, gaps: seq<string>) returns (r: seq<string>)
    ensures r == lines + GapLines(gaps)
  {
    r := lines;
    if gaps != [] {
      for k := 0 to |gaps|
        invariant r == lines + GapLines(gaps)[..k]
      {
        r := r + ["- " + gaps[k] + "\n"];
      }
    } else {
      r := r + [NoneLine];
    }
  }

  /** `generate_report`: the text written to the report file, the lines
      joined by newlines, or the error that stops it before anything is written. */
  method GenerateReport(answer: string -> string, mappings: seq<ComplianceMapping>) returns (r: Result<string, string>)
    ensures r.Success? <==> ReportBody(AuditQueries, answer, mappings).Success?
    ensures r.Success? ==> r.value == Join(ReportHeader + ReportBody(AuditQueries, answer, mappings).value, "\n")
    ensures r.Failure? ==> r.error == ReportBody(AuditQueries, answer, mappings).error && r.error == MissingClauseId
  {
    var lines := BuildReportLines(AuditQueries, answer, mappings);
    match lines
    case Failure(e) =>
      ReportFailureIsKeyError(AuditQueries, answer, mappings);
      return Failure(e);
    case Success(content) =>
      return Success(Join(content, "\n"));
  }

  // Properties of the report

  /** The only error that stops the report is the `KeyError` of a gap clause
      without an id, raised by the first query whose analysis fails; every
      query before it has a block. */
  lemma ReportFailureIsKeyError(queries: seq<AuditQuery>, answer: string -> string, mappings: seq<ComplianceMapping>)
    requires ReportBody(queries, answer, mappings).Failure?
    ensures ReportBody(queries, answer, mappings).error == MissingClauseId
    ensures exists i :: (0 <= i < |queries| && Analysis(answer(queries[i].query), queries[i].section, mappings).Failure?
      && (forall j :: 0 <= j < i ==> Analysis(answer(queries[j].query), queries[j].section, mappings).Success?))
  {
    var f := (q: AuditQuery) => BlockFor(q, answer, mappings);
    var i := ConcatenatedFailureOrigin(queries, f);
    assert f(queries[i]).Failure?;
    forall j | 0 <= j < i ensures Analysis(answer(queries[j].query), queries[j].section, mappings).Success? {
      assert f(queries[j]).Success?;
    }
  }

  /** An Unknown verdict carries its message in `gaps` only, which the report
      does not print: its block shows the status "Unknown" and "- None" under
      both framework headings. */
  lemma UnknownBlock(q: AuditQuery, response: string, mappings: seq<ComplianceMapping>, risk: Risk)
    requires Analysis(response, q.section, mappings).Success?
    requires Analysis(response, q.section, mappings).value.status == Unknown
    ensures var block := QueryBlock(q, response, Analysis(response, q.section, mappings).value, risk);
      && |block| == 10
      && block[3] == "**Compliance Status**: Unknown\n"
      && block[6] == NoneLine && block[8] == NoneLine
  {
    AnalysisCases(response, q.section, mappings);
  }

  /** Under each framework heading, "- None" is written iff that framework
      has no findings; otherwise there is one line per finding. */
  lemma NoneIffNoGaps(framework: string, gaps: seq<string>)
    requires forall g :: g in gaps ==> StartsWith(g, framework + " ")
    requires framework != []
    ensures NoneLine in GapLines(gaps) <==> gaps == []
    ensures gaps != [] ==> |GapLines(gaps)| == |gaps|
  {
    if gaps != [] {
      forall k | 0 <= k < |gaps| ensures GapLines(gaps)[k] != NoneLine {
        FindingLineIsNotNone(framework, gaps[k]);
      }
    }
  }

  /** A finding that names a framework never renders as "- None". */
  lemma FindingLineIsNotNone(framework: string, g: string)
    requires StartsWith(g, framework + " ")
    ensures "- " + g + "\n" != NoneLine
  {
    if |g| == 4 {
      var line := "- " + g + "\n";
      assert line[2 + |framework|] == ' ';
      assert NoneLine[2 + |framework|] != ' ';
    }
  }
}
