/** Error codes, candidate features and provider names. The source only ever compares them for
    equality, so they are numbered; the numbers carry no meaning, and a provider may also answer
    with codes that have no name here. */
module Names {

  type Code = int
  type Feature = int
  type Name = int

  const CANDIDATE_BOUNDARY_SEQUENCE_INVALID: Code := 1
  const LLM_CANDIDATE_SELECTION_DEFERRED: Code := 2
  const LLM_CANDIDATE_UNKNOWN: Code := 3
  const LLM_CONFIDENCE_RECOVERY_EXHAUSTED: Code := 4
  const LLM_CONFIDENCE_TOO_LOW: Code := 5
  const LLM_CONSENSUS_NOT_REACHED: Code := 6
  const LLM_GENERATED_CANDIDATE_REJECTED: Code := 7
  const LLM_INVALID_JSON: Code := 8
  const LLM_LOW_CONFIDENCE_RECOVERED: Code := 9
  const LLM_PROVIDER_UNAVAILABLE: Code := 10
  const LLM_RESPONSE_NOT_OBJECT: Code := 11
  const LLM_SCHEMA_VIOLATION: Code := 12
  const LLM_SPACING_REPAIR_APPLIED: Code := 13
  const LLM_SPACING_REPAIR_DEFERRED: Code := 14
  const SPACING_REPAIR_CHARACTER_MISMATCH: Code := 15
  const SPACING_REPAIR_CONTROL_SEPARATOR: Code := 16
  const SPACING_REPAIR_FALLBACK_UNAVAILABLE: Code := 17
  const SPACING_REPAIR_HARD_LINE_BOUNDARY_MISMATCH: Code := 18
  const SPACING_REPAIR_IDENTIFIER_SPLIT: Code := 19
  const SPACING_REPAIR_IMMUTABLE_BOUNDARY_MISMATCH: Code := 20
  const SPACING_REPAIR_PROTECTED_TOKEN_SPLIT: Code := 21
  const SPACING_REPAIR_SAFE_FALLBACK_UNAVAILABLE: Code := 22
  const VALID: Code := 23

  const SOURCE_SPACING: Feature := 1
  const LLM_GENERATED_SPACING: Feature := 2
  const ATOM_BBOX_CELL_AGREEMENT: Feature := 3
  const CELL_CHARACTER_MULTISET: Feature := 4
  const STRUCTURE_HINT_TEXT: Feature := 5

  const NO_PROVIDER: Name := 0
}
