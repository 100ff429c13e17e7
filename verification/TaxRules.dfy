/** The rule rows of one tax rule set, and the sets the reference data seeds. */
module TaxRules {
  import opened Money

  datatype Slab = Slab(order: int, from: int, to: Option<int>, rate: nat)

  datatype Rebate = Rebate(threshold: int, maxRebate: int, marginalRelief: bool)

  datatype Deduction = Deduction(code: string, maxLimit: Option<int>, isStandard: bool)

  datatype SurchargeBand = SurchargeBand(from: int, to: Option<int>, rate: nat, marginalRelief: bool)

  datatype RuleSet = RuleSet(
    slabs: seq<Slab>,
    rebates: seq<Rebate>,
    deductions: seq<Deduction>,
    surcharges: seq<SurchargeBand>,
    cessRates: seq<nat>)

  const LAKH := 100_000 * RUPEE
  const CRORE := 100 * LAKH

  const SLABS_NEW_2025 := [
    Slab(1, 0, Some(4 * LAKH), 0),
    Slab(2, 4 * LAKH, Some(8 * LAKH), 500),
    Slab(3, 8 * LAKH, Some(12 * LAKH), 1000),
    Slab(4, 12 * LAKH, Some(16 * LAKH), 1500),
    Slab(5, 16 * LAKH, Some(20 * LAKH), 2000),
    Slab(6, 20 * LAKH, Some(24 * LAKH), 2500),
    Slab(7, 24 * LAKH, None, 3000)]

  const SLABS_NEW_2024 := [
    Slab(1, 0, Some(3 * LAKH), 0),
    Slab(2, 3 * LAKH, Some(7 * LAKH), 500),
    Slab(3, 7 * LAKH, Some(10 * LAKH), 1000),
    Slab(4, 10 * LAKH, Some(12 * LAKH), 1500),
    Slab(5, 12 * LAKH, Some(15 * LAKH), 2000),
    Slab(6, 15 * LAKH, None, 3000)]

  const SLABS_OLD := [
    Slab(1, 0, Some(250_000 * RUPEE), 0),
    Slab(2, 250_000 * RUPEE, Some(5 * LAKH), 500),
    Slab(3, 5 * LAKH, Some(10 * LAKH), 2000),
    Slab(4, 10 * LAKH, None, 3000)]

  const BANDS_NEW := [
    SurchargeBand(50 * LAKH, Some(CRORE), 1000, true),
    SurchargeBand(CRORE, Some(2 * CRORE), 1500, true),
    SurchargeBand(2 * CRORE, None, 2500, true)]

  const BANDS_OLD := [
    SurchargeBand(50 * LAKH, Some(CRORE), 1000, true),
    SurchargeBand(CRORE, Some(2 * CRORE), 1500, true),
    SurchargeBand(2 * CRORE, Some(5 * CRORE), 2500, true),
    SurchargeBand(5 * CRORE, None, 3700, true)]

  /** Financial years 2025-26 and 2026-27, new regime. */
  const NEW_2025 := RuleSet(
    SLABS_NEW_2025,
    [Rebate(12 * LAKH, 60_000 * RUPEE, true)],
    [Deduction("16(ia)", Some(75_000 * RUPEE), true)],
    BANDS_NEW,
    [400])

  /** Financial year 2024-25, new regime. */
  const NEW_2024 := RuleSet(
    SLABS_NEW_2024,
    [Rebate(7 * LAKH, 25_000 * RUPEE, true)],
    [Deduction("16(ia)", Some(75_000 * RUPEE), true)],
    BANDS_NEW,
    [400])

  /** Every seeded year, old regime. */
  const OLD := RuleSet(
    SLABS_OLD,
    [Rebate(5 * LAKH, 12_500 * RUPEE, true)],
    [Deduction("16(ia)", Some(50_000 * RUPEE), true),
     Deduction("80C", Some(150_000 * RUPEE), false),
     Deduction("80D", Some(25_000 * RUPEE), false)],
    BANDS_OLD,
    [400])
}
