/** `BRDGenerator` of app/brd_generator.py: the domain is normalised, the AI
    draft is used when it is truthy, and otherwise a fixed template is filled
    in. The OpenAI request is the parameter `ai`, which gets the normalised
    domain name, the description and the notes, and yields the decoded JSON
    payload or `None`. */
module BrdGenerator {
  import opened Text
  import opened OrderedDict
  import opened Options

  /** A decoded JSON value. */
  datatype Json =
    | JNull
    | JBool(b: bool)
    | JNum(n: real)
    | JStr(s: string)
    | JList(items: seq<Json>)
    | JObj(fields: Dict<Json>)

  /** Python truthiness of a decoded value. */
  predicate Truthy(j: Json) {
    match j
    case JNull => false
    case JBool(b) => b
    case JNum(n) => n != 0.0
    case JStr(s) => s != ""
    case JList(items) => items != []
    case JObj(fields) => fields != []
  }

  /** The two domains with a template. */
  datatype Domain = Pharma | Finance

  function DomainName(d: Domain): string {
    match d
    case Pharma => "pharma"
    case Finance => "finance"
  }

  /** `domain.lower()`, and `"pharma"` for anything that is neither
      `"pharma"` nor `"finance"`. */
  function NormaliseDomain(domain: string): (d: Domain)
    ensures d == Finance <==> Lower(domain) == "finance"
    ensures DomainName(d) == Lower(domain) || (Lower(domain) != "pharma" && Lower(domain) != "finance" && d == Pharma)
  {
    var lowered := Lower(domain);
    if lowered == "finance" then Finance else Pharma
  }

  /** Lower-case spellings normalise to themselves; case does not matter. */
  lemma NormaliseIgnoresCase(domain: string)
    ensures NormaliseDomain(domain) == NormaliseDomain(Lower(domain))
  {
    LowerIdempotent(domain);
  }

  lemma LowerIdempotent(s: string)
    ensures Lower(Lower(s)) == Lower(s)
  {
  }

  // ---------------------------------------------------------------------------
  // _generate_template

  /** The four lists that differ by domain. */
  datatype Specifics = Specifics(
    objectives: seq<string>,
    functional: seq<string>,
    nonFunctional: seq<string>,
    regulatory: seq<string>)

  function SpecificsOf(d: Domain): Specifics {
    match d
    case Pharma =>
      Specifics(
        [ "Ensure alignment with Good Clinical Practice (GCP) and regulatory standards.",
          "Streamline trial operations with validated digital workflows.",
          "Enhance pharmacovigilance monitoring and reporting speed." ],
        [ "Capture and manage clinical study protocols with role-based approvals.",
          "Track adverse events with automated signal detection and escalation rules.",
          "Integrate with laboratory information systems for real-time data ingestion." ],
        [ "21 CFR Part 11 compliant audit trails for all data changes.",
          "Validated system with documented Installation/Operational Qualification (IQ/OQ).",
          "High availability architecture supporting 99.9% uptime across study phases." ],
        [ "FDA and EMA submission alignment, including eCTD document structures.",
          "ICH E6 (R3) adherence for clinical quality management.",
          "Pharmacovigilance reporting compliance with global safety regulations." ])
    case Finance =>
      Specifics(
        [ "Improve transparency for regulatory reporting and internal audits.",
          "Automate risk scoring to support credit and market risk decisions.",
          "Provide customer-facing insights while preserving data privacy controls." ],
        [ "Generate regulatory filings (e.g., 10-Q/10-K) with configurable workflows.",
          "Provide real-time risk dashboards with drill-down analytics.",
          "Support Know Your Customer (KYC) onboarding with rule-based verification." ],
        [ "Encryption of data at rest and in transit aligned with FFIEC guidelines.",
          "Support for disaster recovery with Recovery Time Objective (RTO) under 4 hours.",
          "Role-based access controls integrated with enterprise identity providers." ],
        [ "SOX-compliant controls and audit logging for financial transactions.",
          "Basel III capital adequacy and stress testing documentation support.",
          "Adherence to GDPR/CCPA data privacy requirements for customer information." ])
  }

  const InScope: seq<string> := [
    "Core capabilities described in the project context.",
    "Process digitization and stakeholder experiences outlined in discovery.",
    "Regulatory and quality management features essential to the domain." ]

  const OutOfScope: seq<string> := [
    "Adjacent initiatives not referenced in the current business case.",
    "Legacy platform decommissioning beyond agreed integration points." ]

  const Stakeholders: seq<string> := [
    "Executive Sponsor", "Business Owner", "Domain Subject Matter Experts",
    "IT Delivery Lead", "Quality and Compliance Officer" ]

  const DataRequirements: seq<string> := [
    "Authoritative data sources catalogued with ownership and refresh frequency.",
    "Data lineage tracking across ingestion, transformation, and reporting layers.",
    "Data quality rules with monitoring thresholds and stewardship workflows." ]

  const Risks: seq<string> := [
    "Regulatory change impacting scope \U{2014} maintain change-control governance.",
    "Data integration complexity \U{2014} allocate technical spikes and sandbox testing.",
    "User adoption risk \U{2014} schedule enablement sessions and champion network." ]

  const Timeline: seq<string> := [
    "Discovery & requirements validation: 4-6 weeks.",
    "Solution design & vendor alignment: 6-8 weeks.",
    "Implementation & testing: 12-16 weeks (iterative).",
    "Validation & launch readiness: 4 weeks." ]

  const Dependencies: seq<string> := [
    "Access to subject matter experts for validation reviews.",
    "Availability of source system APIs and sandbox environments.",
    "Budget approvals for technology or vendor procurements." ]

  const OpenQuestions: seq<string> := [
    "Clarify success metrics and KPIs for executive reporting.",
    "Confirm integration boundaries with existing enterprise platforms.",
    "Determine change management approach for impacted user groups." ]

  /** The thirteen top-level keys, in the order the template lists them. */
  const TemplateKeys: seq<string> := [
    "title", "executive_summary", "objectives", "scope", "stakeholders",
    "functional_requirements", "non_functional_requirements", "data_requirements",
    "regulatory_and_compliance", "risks_and_mitigations", "timeline",
    "dependencies", "open_questions" ]

  /** A list of strings as JSON. */
  function Strings(xs: seq<string>): (r: Json)
    ensures r.JList? && |r.items| == |xs|
    ensures forall i {:trigger r.items[i]} :: 0 <= i < |xs| ==> r.items[i] == JStr(xs[i])
  {
    JList(seq(|xs|, i requires 0 <= i < |xs| => JStr(xs[i])))
  }

  /** `domain.capitalize()` */
  function Capitalized(d: Domain): string {
    match d
    case Pharma => "Pharma"
    case Finance => "Finance"
  }

  /** `additional_notes.strip() or 'None provided.'` */
  function NotesOrDefault(notes: string): (r: string)
    ensures r != ""
    ensures Strip(notes) != "" ==> r == Strip(notes)
    ensures Strip(notes) == "" ==> r == "None provided."
  {
    var stripped := Strip(notes);
    if stripped != "" then stripped else "None provided."
  }

  const SummaryOpening: string :=
    "This Business Requirements Document was generated from the provided project context. "
    + "It highlights priorities, constraints, and regulatory expectations specific to the "

  /** The fixed prose of the template: the opening of the executive summary
      and every list. The structure below is stated for any prose; the
      template uses `SourceText`. */
  datatype TemplateText = TemplateText(
    opening: string,
    pharma: Specifics,
    finance: Specifics,
    inScope: seq<string>,
    outOfScope: seq<string>,
    stakeholders: seq<string>,
    dataRequirements: seq<string>,
    risks: seq<string>,
    timeline: seq<string>,
    dependencies: seq<string>,
    openQuestions: seq<string>)

  const SourceText: TemplateText := TemplateText(
    SummaryOpening, SpecificsOf(Pharma), SpecificsOf(Finance), InScope, OutOfScope,
    Stakeholders, DataRequirements, Risks, Timeline, Dependencies, OpenQuestions)

  /** `domain_specifics[domain]` */
  function SpecificsFor(t: TemplateText, d: Domain): Specifics {
    if d == Pharma then t.pharma else t.finance
  }

  /** The first sentence pair, ending with the capitalised domain. */
  function SummaryHead(opening: string, d: Domain): string {
    opening + Capitalized(d) + " domain.\n\n"
  }

  function DescriptionLine(description: string): string {
    "Project context summary: " + Strip(description)
  }

  function NotesLine(notes: string): string {
    "Additional notes: " + NotesOrDefault(notes)
  }

  /** A blank line, then the notes line. */
  function NotesBlock(notes: string): string {
    "\n\n" + NotesLine(notes)
  }

  /** The executive summary: the opening naming the domain, then the
      stripped description, then the stripped notes or `None provided.`. */
  function ExecutiveSummary(opening: string, d: Domain, description: string, notes: string): string {
    SummaryHead(opening, d) + DescriptionLine(description) + NotesBlock(notes)
  }

  /** The summary ends with a blank line and the notes line. */
  lemma SummaryEndsWithNotes(opening: string, d: Domain, description: string, notes: string)
    ensures var s := ExecutiveSummary(opening, d, description, notes);
      var tail := NotesBlock(notes);
      |s| >= |tail| && s[|s| - |tail|..] == tail
  {
    Suffix(SummaryHead(opening, d) + DescriptionLine(description), NotesBlock(notes));
  }

  /** The description line follows the domain sentence. */
  lemma SummaryHasDescription(opening: string, d: Domain, description: string, notes: string)
    ensures var s := ExecutiveSummary(opening, d, description, notes);
      var head := SummaryHead(opening, d);
      var line := DescriptionLine(description);
      |s| >= |head| + |line| && s[|head|..|head| + |line|] == line
  {
    Infix(SummaryHead(opening, d), DescriptionLine(description), NotesBlock(notes));
  }

  lemma Suffix<T>(a: seq<T>, b: seq<T>)
    ensures (a + b)[|a + b| - |b|..] == b
  {
  }

  lemma Infix<T>(a: seq<T>, b: seq<T>, c: seq<T>)
    ensures (a + b + c)[|a|..|a| + |b|] == b
  {
  }

  /** The template dictionary for the given prose and executive summary. */
  function Fill(t: TemplateText, d: Domain, summary: string): (r: Json)
    ensures r.JObj? && Keys(r.fields) == TemplateKeys
  {
    var s := SpecificsFor(t, d);
    JObj([
      ("title", JStr(Capitalized(d) + " BRD Draft")),
      ("executive_summary", JStr(summary)),
      ("objectives", Strings(s.objectives)),
      ("scope", JObj([("in_scope", Strings(t.inScope)), ("out_of_scope", Strings(t.outOfScope))])),
      ("stakeholders", Strings(t.stakeholders)),
      ("functional_requirements", Strings(s.functional)),
      ("non_functional_requirements", Strings(s.nonFunctional)),
      ("data_requirements", Strings(t.dataRequirements)),
      ("regulatory_and_compliance", Strings(s.regulatory)),
      ("risks_and_mitigations", Strings(t.risks)),
      ("timeline", Strings(t.timeline)),
      ("dependencies", Strings(t.dependencies)),
      ("open_questions", Strings(t.openQuestions))
    ])
  }

  /** The template for the prose `t`, with the executive summary filled in. */
  function TemplateFor(t: TemplateText, d: Domain, description: string, notes: string): Json {
    Fill(t, d, ExecutiveSummary(t.opening, d, description, notes))
  }

  /** `_generate_template` */
  function Template(d: Domain, description: string, notes: string): Json {
    TemplateFor(SourceText, d, description, notes)
  }

  /** The template has thirteen distinct keys. */
  lemma TemplateKeysDistinct(t: TemplateText, d: Domain, summary: string)
    ensures |Fill(t, d, summary).fields| == 13
    ensures UniqueKeys(Fill(t, d, summary).fields)
  {
    var f := Fill(t, d, summary).fields;
    forall i, j | 0 <= i < j < |f| ensures f[i].0 != f[j].0 {
      assert Keys(f)[i] == f[i].0 && Keys(f)[j] == f[j].0;
      assert TemplateKeys[i] != TemplateKeys[j];
    }
  }

  /** The title names the domain. */
  lemma TemplateTitle(t: TemplateText, d: Domain, summary: string)
    ensures Fill(t, d, summary).fields[0] ==
      ("title", JStr(if d == Pharma then "Pharma BRD Draft" else "Finance BRD Draft"))
  {
    if d == Pharma {
      assert Capitalized(d) + " BRD Draft" == "Pharma BRD Draft";
    } else {
      assert Capitalized(d) + " BRD Draft" == "Finance BRD Draft";
    }
  }

  /** The domain's lists go to the objectives, functional, non-functional and
      regulatory keys. */
  lemma TemplateSpecifics(t: TemplateText, d: Domain, summary: string)
    ensures var f := Fill(t, d, summary).fields;
      var s := if d == Pharma then t.pharma else t.finance;
      f[2] == ("objectives", Strings(s.objectives)) &&
      f[5] == ("functional_requirements", Strings(s.functional)) &&
      f[6] == ("non_functional_requirements", Strings(s.nonFunctional)) &&
      f[8] == ("regulatory_and_compliance", Strings(s.regulatory))
  {
  }

  /** Every other entry is the same for both domains, whatever the inputs. */
  lemma TemplateSharedEntries(t: TemplateText, summary: string)
    ensures var p := Fill(t, Pharma, summary).fields;
      var q := Fill(t, Finance, summary).fields;
      p[3] == q[3] && p[4] == q[4] && p[7] == q[7] && p[9] == q[9] &&
      p[10] == q[10] && p[11] == q[11] && p[12] == q[12]
  {
  }

  // ---------------------------------------------------------------------------
  // generate_brd

  /** `generate_brd` with the template prose `t`: the AI payload when it is
      truthy, the template otherwise. */
  function GenerateWith(t: TemplateText, domain: string, description: string, notes: string,
                        ai: (string, string, string) -> Option<Json>): (r: Json)
    ensures var d := NormaliseDomain(domain);
      var reply := ai(DomainName(d), description, notes);
      if reply.Some? && Truthy(reply.value) then r == reply.value
      else r == TemplateFor(t, d, description, notes)
  {
    var d := NormaliseDomain(domain);
    var reply := ai(DomainName(d), description, notes);
    if reply.Some? && Truthy(reply.value) then reply.value else TemplateFor(t, d, description, notes)
  }

  /** `generate_brd` */
  function GenerateBrd(domain: string, description: string, notes: string,
                       ai: (string, string, string) -> Option<Json>): Json {
    GenerateWith(SourceText, domain, description, notes, ai)
  }

  /** Without a client the AI path yields nothing and the template is used;
      an unsupported domain then gets the pharma template. */
  lemma NoClientUsesTemplate(t: TemplateText, domain: string, description: string, notes: string)
    ensures var r := GenerateWith(t, domain, description, notes, (_, _, _) => None);
      r == TemplateFor(t, NormaliseDomain(domain), description, notes)
      && (Lower(domain) != "finance" ==> r == TemplateFor(t, Pharma, description, notes))
  {
  }

  /** The result is always truthy: the AI payload only when it is, and the
      template always. */
  lemma GenerateBrdTruthy(t: TemplateText, domain: string, description: string, notes: string,
                          ai: (string, string, string) -> Option<Json>)
    ensures Truthy(GenerateWith(t, domain, description, notes, ai))
  {
  }
}
