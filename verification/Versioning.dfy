/** `plan_version`: which numeric version transitions of one entity are allowed. */
module Versioning {
  import opened Common

  const MAX_VERSION := 999

  datatype PlanCode = NewV1 | Stale | Gap | LimitReached | NoChange | ChangedWithoutChange | Advance | Collision

  /** A version outside its bounds raises before anything is planned. */
  datatype Plan = Allow(code: PlanCode) | Block(code: PlanCode) | OutOfRange

  predicate InRange(version: Option<int>) {
    version.Some? ==> 1 <= version.value <= MAX_VERSION
  }

  /** `_next_version`. */
  function NextVersion(current: int): Option<int> {
    if current == MAX_VERSION then None else Some(current + 1)
  }

  /** `plan_version`. */
  function PlanVersion(current: Option<int>, changed: bool, base: Option<int>, proposed: Option<int>): Plan {
    if !InRange(current) || !InRange(base) || !InRange(proposed) then OutOfRange
    else if current.None? then
      if base.Some? then Block(Stale)
      else if proposed != None && proposed != Some(1) then Block(Gap)
      else Allow(NewV1)
    else
      var expected := if changed then NextVersion(current.value) else current;
      if base != current then Block(Stale)
      else if changed && expected.None? then Block(LimitReached)
      else if !changed then
        if proposed == None || proposed == current then Allow(NoChange) else Block(ChangedWithoutChange)
      else if proposed == None || proposed == expected then Allow(Advance)
      else if proposed.value <= current.value then Block(Collision)
      else Block(Gap)
  }

  /** The one version an entity may have next: the first, the same, or the successor. */
  function Successor(current: Option<int>, changed: bool): Option<int> {
    if current.None? then Some(1)
    else if !changed then current
    else if current.value < MAX_VERSION then Some(current.value + 1)
    else None
  }

  /** A plan is allowed exactly when it starts from the current version and proposes nothing or
      the one version that may come next. */
  lemma AllowedIff(current: Option<int>, changed: bool, base: Option<int>, proposed: Option<int>)
    requires InRange(current)
    ensures PlanVersion(current, changed, base, proposed).Allow? <==>
              && base == current && Successor(current, changed).Some?
              && (proposed == None || proposed == Successor(current, changed))
  {
  }

  predicate IsVersion(version: Option<int>) {
    version.None? || 1 <= version.value <= 999
  }

  /** What is planned, by its code. A new entity is allowed at version 1 and has no base. An old one must be planned from its own version; then an
      unchanged one keeps it, and a changed one advances to the next, up to 999. */
  lemma PlanCodes(current: Option<int>, changed: bool, base: Option<int>, proposed: Option<int>)
    ensures var plan := PlanVersion(current, changed, base, proposed);
            var fits := IsVersion(current) && IsVersion(base) && IsVersion(proposed);
            var first := fits && current.None? && base.None?;
            var own := fits && current.Some? && base == current;
            && (plan == OutOfRange <==> !fits)
            && (plan == Block(Stale) <==> fits && base != current)
            && (plan == Allow(NewV1) <==> first && (proposed.None? || proposed.value == 1))
            && (plan == Allow(NoChange) <==> own && !changed && (proposed.None? || proposed == current))
            && (plan == Block(ChangedWithoutChange) <==> own && !changed && proposed.Some? && proposed != current)
            && (plan == Block(LimitReached) <==> own && changed && current.value == 999)
            && (plan == Allow(Advance) <==> own && changed && current.value < 999 && (proposed.None? || proposed.value == current.value + 1))
            && (plan == Block(Collision) <==> own && changed && current.value < 999 && proposed.Some? && proposed.value <= current.value)
            && (plan == Block(Gap) <==> (first && proposed.Some? && proposed.value != 1)
                                        || (own && changed && current.value < 999 && proposed.Some? && proposed.value > current.value + 1))
  {
  }

  /** Whatever is allowed with a proposed version keeps within the limit. */
  lemma AllowedInRange(current: Option<int>, changed: bool, base: Option<int>, proposed: int)
    requires PlanVersion(current, changed, base, Some(proposed)).Allow?
    ensures Some(proposed) == Successor(current, changed) && 1 <= proposed <= MAX_VERSION
  {
  }

  /** The version `_build_table_records` proposes when none is configured. */
  function DefaultProposal(current: Option<int>, changed: bool): int {
    if current.None? then 1 else current.value + if changed then 1 else 0
  }

  /** At the last version a changed table without a configured version is not blocked as limited:
      its default proposal is out of range, and planning raises. */
  lemma LimitRaises(current: int, base: Option<int>)
    requires 1 <= current <= MAX_VERSION && InRange(base)
    ensures PlanVersion(Some(current), true, base, Some(DefaultProposal(Some(current), true))) == OutOfRange <==> current == MAX_VERSION
    ensures PlanVersion(Some(MAX_VERSION), true, Some(MAX_VERSION), None) == Block(LimitReached)
  {
  }
}
