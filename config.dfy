/** The static configuration the core reads (config/settings.py). */
module Config {

  /** The required BRD section names, in document order. */
  const BrdSections: seq<string> := [
    "Project Overview",
    "Business Objectives",
    "Functional Requirements",
    "Non-Functional Requirements",
    "Key Performance Indicators (KPIs)",
    "Compliance & Risk Assessment",
    "Stakeholder Analysis",
    "Project Scope"
  ]

  /** Compliance keywords per domain; the keys are case-sensitive. */
  const ComplianceKeywords: map<string, seq<string>> := map[
    "Pharma" := ["FDA", "21 CFR Part 11", "HIPAA", "GxP", "clinical trial", "adverse event"],
    "Finance" := ["Basel III", "GDPR", "credit risk", "probability of default", "loss given default", "collateral"]
  ]

  const SupportedDomains: seq<string> := ["Pharma", "Finance"]
}
