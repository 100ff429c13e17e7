# Verified model of the salary and compliance engine

This project models, in Dafny, the parts of the system that compute money or guard state, and proves what
they promise. Amounts are whole paise, rates ten-thousandths, instants microseconds, dates day numbers.
Where the system works by changing things step by step, so does the model: its loops are methods with
invariants and its services are classes, each tied to a function about which the results are proved; what
such a function gives is stated once more in plain fields, so that the results do not rest on its own
words. Clocks, identifiers, digests and the impact analyzer's verdict are inputs.

- **Income tax** (`TaxRules`, `TaxEngine`, `TaxLaws`, `TaxSeeds`): the pipeline of deductions, slabs,
  section 87A rebate and relief, surcharge and relief, cess and rounding to ten rupees, driven by rule rows.
  The laws hold for every well-formed rule set, and the seeded ones are shown to be well formed: slabs and
  surcharge bands that meet end to end, a rebate that wipes out the tax at its threshold, and reliefs that
  run out before the next band begins.
- **The oracle** (`TaxOracle`, `TaxAgreement`, `TaxDrift`): the same tax from hard-coded if-chains, exactly
  when the two agree, and how far apart they can be.
- **Take-home** (`Salary`, `SalaryAmounts`): normalizer, provident fund, professional tax and their
  composition, and every amount in it.
- **Audit ledger** (`Audit`): appending under a lock, by any number of threads, and verification.
- **Rate limiters** (`RateLimiters`, `RedisLimiter`, `LimiterAgreement`): two sliding windows, when one can
  be trusted for the other and when they answer alike.
- **One-time codes** (`Otp`, `OtpAnswers`) and **refresh sessions** (`Sessions`, `SessionAnswers`).
- **Rule supersession** (`Supersession`, `Registration`, `Lineage`): gates, what is registered and recorded,
  lineage pointers, idempotency, and when the lineage is free of cycles.
- **Compensation and payroll** (`Compensation`): the overlap guard, payroll's pick, the run totals.
- **Printing and reading rupees** (`Rupees`, `PrintedRupees`) and **payslip reconciliation**
  (`Reconciliation`, `Verdicts`).

Main results: the tax never falls as salary rises (`SeededTaxMonotone`), extra income never costs more than
itself before cess, but for one paisa on a step of one paisa (`SeededReliefBound`, `OneForOneExactly`),
engine and oracle agree exactly where stated (`EngineEqualsOracleNew2025`, `EngineEqualsOracleOld`,
`OldTotalsAgreeExactly`) and are never more than ten rupees apart up to five crore
(`TotalsWithinTenRupees`), take-home is made of exact figures and before other deductions never negative
(`TakeHomeNeverNegative`), every interleaving of threads leaves the ledger in order
(`EveryInterleavingInOrder`) with the requests written in its rows (`RowsCarryRequests`), and tampering
with it is noticed (`TamperingIsNoticed`), when Redis admits no more than the local limiter, and when the
two answer alike, is known exactly (`TrustedExactly`, `AlikeExactly`), tokens and sessions keep their
promises over all runs (`TokenLife`, `FinalIsFinal`, `ExchangedOnce`, `ReplayTerminates`), codes and logins
that were given out are accepted exactly as long as they should be (`SentCodeIsAccepted`,
`LoginIsRenewed`), a supersession leaves exactly the rules and the event it should (`CarriedOut`), the
lineage stays acyclic and answered in both directions exactly when stated (`NoCycleExactly`,
`AnsweredExactly`, `BackExactly`), and payroll's pick is right exactly when stated
(`PayrollPicksTheRecordInForce`).

## Where the code and its documentation part

The model follows the code. Where a promise fails, the exact condition or a concrete case is proved.

- `backend/app/services/audit_service.py:296` promises that tail deletions are detected. A chain deleted in
  full is accepted before the head is read (line 315), a cut tail is noticed only while the head record
  exists, and `expected_head_sequence` (line 306) is never read.
- `backend/app/engine/oracle/independent_oracle.py:124` takes `is_old_regime` and ignores it: the seeded 37%
  tier above five crore is missing. The oracle also leaves the bracket tax unrounded, so with paise in the
  salary the totals can differ, by ten rupees at most.
- `backend/app/core/redis_rate_limiter.py:4` says that it mirrors the in-memory limiter. It also counts the
  requests it rejects (`AlikeExactly` says when the answers are the same nevertheless), counts two requests
  at one instant once (`TrustedExactly` says when that matters), and with a limit of 0 and no window it
  admits where the other fails on an empty list (`RefinementExactly`).
- `backend/app/services/payroll_service.py:104` speaks of the active compensation for the pay date; the
  query never looks at `effective_to`, and a record with an empty date range passes the overlap guard and
  can hide the one in force.
- `backend/app/seeds/seed_reference_data.py:448-720` seeds some professional tax rows with gaps of paise or
  a rupee between them, where nothing is charged (`NoLowerGrossPaysMoreExactly`).
- `backend/app/engine/pf/pf_calculator.py:14` names 1,250 rupees as the cap of the pension share; 8.33% of
  15,000 rupees is 1,249.50 (`SeededFundShares`).
- `backend/app/presentation/money.py:28` can round a fraction up to 100 paise and print it as three digits.
- `backend/app/core/compliance/rule_supersession_service.py:145` joins the idempotency key with colons. A
  request with a colon in an identifier or its version shares its key with another, which, once past the
  gates, is taken for a repetition, and no other request does (`KeyIsFaithful`, `ColonSwallowsAnother`).
- `backend/app/core/compliance/rule_supersession_service.py:3` and `rule_registry.py:3` promise pointers in
  both directions. A future-dated request leaves its new rule unanswered, and superseding a rule again, from
  any date, takes its pointer away from its earlier successor. `AnsweredExactly` and `BackExactly` say when
  the pointers forward and back stay answered.
- `backend/app/core/compliance/rule_registry.py:79` guarantees that historical bundles never mutate. A
  request may name a registered rule as the new one and overwrite it (`ContentKeptExactly` says when the
  content survives), and may close a cycle in the lineage (`CycleExactly`), a rule superseding itself
  included.

## Model

| member | source | states |
|---|---|---|
| Money.Quantize | backend/app/engine/common/money.py:23-26 | the result is within half a paisa of the exact amount, and a tie goes away from zero |
| Money.RoundToTenRupees | backend/app/engine/common/rounding.py:48-52 | the result is the multiple of ten rupees within five of the amount, a tie going away from zero (section 288B) |
| Money.RoundToTenRupeesMonotone | backend/app/engine/common/rounding.py:48-52 | rounding keeps order and widens a gap by less than ten rupees |
| Money.AtRateMonotone | backend/app/engine/common/money.py:23-26 | a charge on a larger amount is never smaller, and rounding adds less than one paisa to the exact difference |
| Money.AtRateMonotoneInRate | backend/app/engine/common/money.py:23-26 | a charge at a higher rate is never smaller |
| Money.AtRateExact | backend/app/engine/common/money.py:23-26 | whole rupees at a whole percentage are charged without rounding |
| Sorting.SortKeepsRows | backend/app/engine/tax/slabs.py:15 | sorting the rows by their order keeps every row, as often as it occurs |
| Sorting.SortOfSorted | backend/app/engine/professional_tax/pt_calculator.py:24 | rows already in order stay as they are |
| Sorting.SortIsStable | backend/app/engine/tax/slabs.py:15 | the sort is stable: the rows of one order number come out as they went in |
| TaxEngine.CalculateSlabTax | backend/app/engine/tax/slabs.py:11-46 | the loop totals the rounded tax of every bracket, whatever order the rows come in, and its lines, one for each sorted row, add up to that total |
| TaxEngine.SlabTaxPermutation | backend/app/engine/tax/slabs.py:15-33 | the slab tax is the same for every order of the slab rows |
| TaxEngine.CalculateRebate | backend/app/engine/tax/rebates.py:11-31 | the loop grants the first rebate row whose threshold covers the income, capped, and nothing to a non-resident |
| TaxEngine.RebateExactly | backend/app/engine/tax/rebates.py:17-31 | a rebate is granted exactly to a resident with tax to pay and an income within some threshold, by the first such row, at most the tax and at most its amount |
| TaxEngine.CalculateCess | backend/app/engine/tax/cess.py:11-19 | the loop accumulates one rounded charge for each cess row, and nothing on a base that is not positive |
| TaxLaws.SlabTaxMonotone | backend/app/engine/tax/slabs.py:17-33 | over any ascending slabs, the sum of the separately rounded brackets never falls as income rises |
| TaxLaws.RoundedOnce | backend/app/engine/tax/slabs.py:17-33 | over any ascending whole-percent slabs, the brackets rounded one by one add up to the exact tax rounded once |
| TaxLaws.ThresholdShortcut | backend/app/engine/tax/marginal_relief.py:63-69 | taking the rounded 30% of the excess off the tax on the whole income leaves exactly the slab tax at the threshold, for every paise income above it |
| TaxLaws.TaxAfterRebate | backend/app/engine/tax/tax_calculator.py:54-62 | rebate and rebate relief together: nothing is due up to the threshold, and above it the smaller of the slab tax and the excess |
| TaxLaws.TaxAfterRebateMonotone | backend/app/engine/tax/tax_calculator.py:54-62 | the tax after the rebate cliff never falls as income rises |
| TaxLaws.TaxInSurchargeRange | backend/app/engine/tax/tax_calculator.py:54-65 | from the first surcharge threshold on, the rebate no longer touches the tax |
| TaxLaws.CoveringBandsAgree | backend/app/engine/tax/surcharge.py:19-31 | two surcharge brackets that both cover an income leave the same tax, surcharge and relief in all |
| TaxLaws.ChargedByAnyBand | backend/app/engine/tax/marginal_relief.py:41-88 | whichever covering bracket is found first, tax plus surcharge minus relief is the smaller of the full surcharge and the tax at the threshold plus the excess |
| TaxLaws.OrderIndependence | backend/app/repositories/tax_rule_repository.py:71-79 | tax, surcharge and total are the same for every order of the slab and surcharge rows, shared boundaries included |
| TaxLaws.TaxAndSurchargeMonotone | backend/app/engine/tax/tax_calculator.py:51-69 | after both reliefs, tax and surcharge never fall as taxable income rises, at any paisa |
| TaxLaws.TotalMonotone | backend/app/engine/tax/tax_calculator.py:51-76 | the total after cess and rounding to ten rupees is non-negative and never falls as taxable income rises |
| TaxLaws.TaxMonotoneInGross | backend/app/engine/tax/tax_calculator.py:23-76 | for every well-formed rule set the annual tax never falls as the gross salary rises, claims unchanged, at any paisa |
| TaxLaws.SlabTaxSlope | backend/app/engine/tax/slabs.py:17-33 | between any two incomes the slab tax rises by less than the top rate and one paisa, and by at most the top rate between whole rupees |
| TaxLaws.ReliefBound | backend/app/engine/tax/marginal_relief.py:33-88 | at any paisa, tax and surcharge less relief rise by at most the rise in income, over every slab edge, rebate and surcharge threshold, but for one paisa that only a step of one paisa between whole rupees can add |
| TaxLaws.TotalReliefBound | backend/app/engine/tax/tax_calculator.py:51-76 | at any paisa the total after the 4% cess and rounding rises by at most 1.04 times that bound and ten rupees |
| TaxSeeds.SlabTaxNew2025 | backend/app/seeds/seed_reference_data.py:203-218 | the rounded bracket loop on the seeded 2025-26 new-regime slabs is the exact bracket table rounded once |
| TaxSeeds.SlabTaxNew2024 | backend/app/seeds/seed_reference_data.py:277-291 | the same for the seeded 2024-25 new-regime slabs |
| TaxSeeds.SlabTaxOld | backend/app/seeds/seed_reference_data.py:345-361 | the same for the seeded old-regime slabs |
| TaxSeeds.New2025WellFormed | backend/app/seeds/seed_reference_data.py:203-260 | the seeded rules of 2025-26 and 2026-27, new regime, are a well-formed rule set |
| TaxSeeds.New2024WellFormed | backend/app/seeds/seed_reference_data.py:277-327 | the seeded rules of 2024-25, new regime, are well formed |
| TaxSeeds.OldWellFormed | backend/app/seeds/seed_reference_data.py:345-414 | the seeded old-regime rules of every year are well formed |
| TaxSeeds.SeededTaxMonotone | backend/app/engine/tax/tax_calculator.py:23-76 | in every seeded year and regime the annual tax never falls as the gross rises |
| TaxSeeds.SeededReliefBound | backend/app/engine/tax/marginal_relief.py:33-88 | in every seeded year and regime both relief bounds hold at any paisa |
| TaxSeeds.OnePaisaCanCostTwo | backend/app/engine/tax/surcharge.py:31 | in every seeded year and regime there is an income at which one paisa more costs two |
| TaxSeeds.OneForOneExactly | backend/app/engine/tax/marginal_relief.py:33-88 | in every seeded year and regime, a step of income adds at most itself to tax and surcharge, whatever the income, exactly when it is not a step of one paisa |
| TaxOracle.ComputeSurcharge | backend/app/engine/oracle/independent_oracle.py:123-162 | the if-chains return the oracle's surcharge net of relief, and the relief |
| TaxOracle.RoundOff | backend/app/engine/oracle/independent_oracle.py:217-223 | the result is the multiple of ten rupees nearest to the amount, the upper one of two |
| TaxOracle.CalculateFy2025New | backend/app/engine/oracle/independent_oracle.py:165-255 | the accumulated if-chain is the exact 2025-26 bracket table followed by the oracle's rebate, surcharge, cess and rounding |
| TaxOracle.CalculateFy2026New | backend/app/engine/oracle/independent_oracle.py:257-259 | 2026-27 is charged as 2025-26 |
| TaxOracle.CalculateFy2024New | backend/app/engine/oracle/independent_oracle.py:262-341 | the same for 2024-25 |
| TaxOracle.CalculateFy2025Old | backend/app/engine/oracle/independent_oracle.py:344-386 | the same for the old regime, with capped claims and a capped rebate |
| TaxOracle.SameRounding | backend/app/engine/oracle/independent_oracle.py:217-223 | rounding to ten rupees by remainder and by half-up quantization are the same function |
| TaxOracle.SameSurcharge | backend/app/engine/oracle/independent_oracle.py:123-162 | on a whole-paise tax the oracle's surcharge net of relief is the engine's |
| TaxAgreement.EngineEqualsOracleNew2025 | backend/app/engine/oracle/independent_oracle.py:165-255 | new regime 2025-26 and 2026-27: taxable income always agrees, and slab tax, rebate, tax after rebate, surcharge, cess and total all agree exactly when the taxable income is a multiple of 20, 10, 20, 5, 4 or 10 paise by bracket, as every whole rupee is |
| TaxAgreement.EngineEqualsOracleNew2024 | backend/app/engine/oracle/independent_oracle.py:262-341 | the same for the new regime of 2024-25 and its brackets |
| TaxAgreement.EngineEqualsOracleOld | backend/app/engine/oracle/independent_oracle.py:344-386 | old regime, any claims: everything agrees exactly when the taxable income is a multiple of 20, 5 or 10 paise by bracket and at most five crore |
| TaxAgreement.OldTotalsAgreeExactly | backend/app/engine/oracle/independent_oracle.py:124-162 | on whole rupees the two old-regime totals agree exactly up to 5,00,00,004 rupees and at 5,00,00,013 and 5,00,00,014: the engine has a 37% tier there and the oracle has not |
| TaxAgreement.TierChargesMore | backend/app/seeds/seed_reference_data.py:399-404 | the 37% tier charges strictly more at every income above five crore |
| TaxAgreement.TotalsDifferOnPaise | backend/app/engine/tax/slabs.py:32 | with paise in the salary the totals can differ by ten rupees: a concrete gross |
| TaxDrift.NearTotals | backend/app/engine/oracle/independent_oracle.py:123-223 | for every well-formed rule set with the oracle's bands and the 4% cess, at any paisa the two totals are at most ten rupees apart |
| TaxDrift.TotalsWithinTenRupees | backend/app/engine/oracle/independent_oracle.py:164-386 | at every paisa of income, in the old regime up to five crore, the totals of engine and oracle are at most ten rupees apart |
| Salary.Normalize | backend/app/engine/normalizer/salary_normalizer.py:16-81 | the loop and branches return the specified salary, or the first negative field, or the lack of any amount |
| Salary.ComponentsAddUp | backend/app/engine/normalizer/salary_normalizer.py:43-57 | the components add up to the gross exactly unless both were given, disagree, and the special allowance could not absorb the gap |
| Salary.EmployerMatchesEmployee | backend/app/engine/pf/pf_calculator.py:39-68 | under any rules the employer's fund and pension shares add up to the larger of the employee's share and the pension share, hence to the employee's where the pension base and rate are within the fund's; the amounts themselves are stated by FundShares and SeededFundShares |
| Salary.CalculatePt | backend/app/engine/professional_tax/pt_calculator.py:15-50 | the search returns the first matching row in order, eleven months of it and one February |
| Salary.PtWithinLimit | backend/app/seeds/seed_reference_data.py:448-720 | in every seeded state the professional tax is between 0 and 2,500 rupees a year, and nothing is charged below 7,501 a month |
| Salary.NoLowerGrossPaysMoreExactly | backend/app/seeds/seed_reference_data.py:448-720 | in every seeded state, no lower monthly gross pays more than a given one exactly when some row covers it or no row ending below it charges: the rows leave gaps |
| Salary.SlabTaxBound | backend/app/engine/tax/slabs.py:17-33 | the slab tax never exceeds 30% of the income by more than half a paisa |
| Salary.TaxFraction | backend/app/engine/tax/tax_calculator.py:51-76 | for every well-formed rule set with whole-percent slabs, the 4% cess and surcharges up to 37%, the total is at most 45% of a taxable income from 250 rupees on, and nothing is due up to the rebate threshold below the bands |
| Salary.PfFraction | backend/app/engine/pf/pf_calculator.py:39-49 | the employee's fund share of a gross split by the normalizer is at most an eighth of it |
| SalaryAmounts.FundShares | backend/app/engine/pf/pf_calculator.py:23-68 | under any rules the employee's share is, to the nearest paisa, the rate on the whole wage base when opted in and on the base up to the ceiling otherwise; pension and insurance shares are on the base up to theirs; the year is twelve months; outside the fund or without a base nothing is paid |
| SalaryAmounts.SeededFundShares | backend/app/engine/pf/pf_calculator.py:39-68 | as seeded: 12% of the base when opted in or up to 15,000 rupees, and exactly 1,800 rupees from there on otherwise; pension 8.33% and insurance 0.5% of the base up to 15,000, at most 1,249.50 and 75 rupees; the employer's two shares add up to the employee's |
| SalaryAmounts.PtExactly | backend/app/engine/professional_tax/pt_calculator.py:23-42 | for any rows: the amounts are those of a matching row with the lowest order number, eleven months and one February, and nothing if no row matches |
| SalaryAmounts.SeededYearlyPt | backend/app/seeds/seed_reference_data.py:448-720 | the year's professional tax of all seven seeded states as a table of amounts by monthly gross, gaps included |
| SalaryAmounts.NormalizedFields | backend/app/engine/normalizer/salary_normalizer.py:22-67 | every field of the result: the gross by precedence of annual, monthly and cost to company; half, a fifth and the rest when no parts came; else the parts as given, the special allowance filling the gap only when left out and short by more than a rupee; monthly figures nearest to a twelfth |
| SalaryAmounts.RefusedSalary | backend/app/engine/normalizer/salary_normalizer.py:17-61 | an input is refused exactly for a negative amount, the first one, or for want of any positive amount |
| SalaryAmounts.TaxableExactly | backend/app/engine/tax/tax_calculator.py:28-49 | under the seeded rules, for every claim: the standard deduction or its override up to the gross, the two sections up to their limits, none in the new regime, other deductions and exemptions in full, and never below nothing |
| SalaryAmounts.TakeHomeFigures | backend/app/services/calculation_service.py:52-102 | for every accepted salary, components or not: the income taxed, the fund share, the professional tax of the state and the take-home left of the gross |
| SalaryAmounts.TakeHomeNeverNegative | backend/app/services/calculation_service.py:52-111 | for every input without negative amounts and components, by annual or monthly gross or cost to company, and every seeded year, regime and state: gross, components, taxed income, the employee's fund share and the professional tax are the stated amounts, the components add up to the gross, the employer matches the fund share, professional tax is within its limit, take-home and other deductions together lie between 0 and the gross, and the validator accepts |
| Audit.VerifyChain | backend/app/services/audit_service.py:301-430 | a verdict of valid is equivalent to numbering from 1, unbroken links, recomputed hashes, and agreement with the head and the expected hash; otherwise the first wrong event is reported with the first check it fails, all before it being right, or on a good chain the first head check that fails and the number it reports |
| Audit.TamperEvidence | backend/app/services/audit_service.py:46-79 | two correct chains that end in the same event hash have the same length and the same fourteen hashed fields event by event, if the hash does not collide on their events |
| Audit.AcceptedAgainstOneHead | backend/app/services/audit_service.py:393-407 | two non-empty ledgers accepted against one head record are the same event by event |
| Audit.TruncationNoticed | backend/app/services/audit_service.py:396-406 | cutting off a tail but not all of a chain is noticed exactly when the head record is there |
| Audit.TotalDeletionUnnoticed | backend/app/services/audit_service.py:315-324 | a chain deleted in full is accepted whatever the head and the expected hash say |
| Audit.AuditStore.constructor | backend/app/services/audit_service.py:87-112 | a store starts without rows, heads or checkpoints |
| Audit.AuditStore.LogEvent | backend/app/services/audit_service.py:152-245 | the new ledger is the old one with an event that carries every field of the request, is hashed over its own fields and linked to the head; that head alone moves, keeping its tenant, and every hundredth event is checkpointed; an ordered ledger stays ordered |
| Audit.AppendKeepsChain | backend/app/services/audit_service.py:152-245 | an append leaves every chain, its own and the others, numbered, linked, headed and checkpointed in order |
| Audit.InOrderIsAccepted | backend/app/services/audit_service.py:312-430 | a ledger kept in order is accepted by verification |
| Audit.EveryInterleavingInOrder | backend/app/services/audit_service.py:152-245 | for every interleaving of any number of threads on any chains, each chain is numbered 1 to n, linked, matched by its head, checkpointed exactly at the multiples of 100, and accepted |
| Audit.AppendRecords | backend/app/services/audit_service.py:171-240 | field by field, what one append writes: the event, the entries its hash covers, the head and its tenant, the checkpoint and what that hashes |
| Audit.RowsCarryRequests | backend/app/services/audit_service.py:152-245 | after every interleaving the i-th row of a chain carries all fields of the i-th request written on it, which some thread called with; the head keeps the first row's tenant; the k-th checkpoint is of event 100k, holds its hash and hashes chain, number and hash |
| Audit.TamperingIsNoticed | backend/app/services/audit_service.py:301-417 | after any run, with the heads left alone, any rows put in place of a logged chain are accepted only if none are left or they are the logged events |
| RateLimiters.InMemoryRateLimiter.CheckRateLimit | backend/app/core/rate_limiter.py:20-42 | the answer and the whole new store: pruned, compared, and extended only on admission; an empty list with a limit that is not positive fails |
| RateLimiters.WindowStep | backend/app/core/rate_limiter.py:26-42 | one check keeps the stored list equal to the admissions inside the window, and admissions a window apart |
| RateLimiters.SlidingWindow | backend/app/core/rate_limiter.py:26-42 | over any run of mixed keys, if the clock never goes back between attempts of a key, its i-th and (i+m)-th admissions are at least a window apart, and the list kept is exactly the admissions inside the window |
| RateLimiters.AfterMembers | backend/app/core/rate_limiter.py:30 | what is kept of a list is exactly what came strictly after the cutoff |
| RateLimiters.AdmittedExactly | backend/app/core/rate_limiter.py:30-42 | over any run an attempt is admitted exactly when fewer than the limit of its key's admissions are inside the window |
| RateLimiters.OutcomeExactly | backend/app/core/rate_limiter.py:30-42 | what one check answers, and that the stated wait is the time until the oldest admission leaves the window, less than a second short of it |
| RateLimiters.RetryAfterIsEnough | backend/app/core/rate_limiter.py:32-40 | a rejected caller that returns one second after the stated wait, with no traffic on its key in between, is admitted |
| RateLimiters.WaitIsNeeded | backend/app/core/rate_limiter.py:32-40 | a rejected caller that returns before the stated wait is over, with no traffic on its key in between, is rejected again |
| RedisLimiter.RedisRateLimiter.CheckRateLimit | backend/app/core/redis_rate_limiter.py:66-95 | the whole new state, admission exactly when the recorded set is within the limit, and the wait computed from the oldest entry left |
| RedisLimiter.Oldest | backend/app/core/redis_rate_limiter.py:85 | the loop finds the least score |
| RedisLimiter.RedisRefinesMemory | backend/app/core/redis_rate_limiter.py:71-95 | over any run in which each key is tried at strictly increasing instants, every request Redis admits, the process-local limiter admits too, for any limits but a limit of 0 without a window |
| RedisLimiter.RefinementExactly | backend/app/core/redis_rate_limiter.py:71-95 | for one limit the refinement holds of every such run exactly when the limit is not zero or the window is positive |
| RedisLimiter.SameInstantIsCountedOnce | backend/app/core/redis_rate_limiter.py:77 | two requests at one instant are one member: a run in which Redis admits both under a limit of one |
| RedisLimiter.ExpiryNeverMatters | backend/app/core/redis_rate_limiter.py:79 | expiring a key two windows after its last attempt never changes an answer |
| LimiterAgreement.RedisAdmitsExactly | backend/app/core/redis_rate_limiter.py:74-83 | Redis turns an attempt away exactly when its window holds more attempts than the limit, rejected ones included |
| LimiterAgreement.TrustedExactly | backend/app/core/redis_rate_limiter.py:77 | for a run in clock order, Redis admits no more than the list under every positive limit and window exactly when no key is tried twice at one instant |
| LimiterAgreement.AlikeExactly | backend/app/core/redis_rate_limiter.py:71-95 | over a run whose keys tick strictly the two limiters give the same answers exactly when every attempt with more attempts in its window than the limit has at least the limit of earlier attempts there that had not; a condition on the trace alone |
| LimiterAgreement.RejectedAttemptsCount | backend/app/core/redis_rate_limiter.py:77-83 | a run in which Redis turns away, for the sake of an attempt it had rejected, what the list admits |
| Otp.OtpService.constructor | backend/app/services/otp_service.py:32-45 | a service starts without tokens and with an unused limiter |
| Otp.OtpService.CreateVerificationToken | backend/app/services/otp_service.py:86-159 | the whole new token list and limiter state: rate limit first, then the cancelling loop with its cooldown, then the new token |
| Otp.OtpService.VerifyOtp | backend/app/services/otp_service.py:162-238 | the whole new token list and the answer, gate by gate; what each answer means is stated by AnswersExactly, RefusalsExactly and SubmissionOverRuns |
| Otp.CheckKeepsToken | backend/app/services/otp_service.py:184-230 | one verification keeps a token's history consistent: comparisons equal attempts and success, at most five, and a token no longer pending is left as it is |
| Otp.CancelShape | backend/app/services/otp_service.py:115-126 | the cancelling pass touches only pending tokens of the pair past their cooldown, and stops at the first that is not |
| Otp.CooldownChangesNothing | backend/app/services/otp_service.py:115-126 | with one pending token for the pair, a cooldown rejection changes no token |
| Otp.TokenLife | backend/app/services/otp_service.py:187-230 | over any run no token has more than five codes compared with it, and none succeeds twice |
| Otp.FinalIsFinal | backend/app/services/otp_service.py:187-230 | a token once verified, locked, cancelled or expired never changes again, though expired has no guard of its own; at most one token is pending for an email and purpose |
| Otp.SuccessIsEarned | backend/app/services/otp_service.py:175-230 | a code is accepted only for a pending, unexpired token of the purpose whose digest it has, and only that token moves |
| Otp.IssueSupersedes | backend/app/services/otp_service.py:99-150 | a refused request changes no token; a granted one cancels the pair's pending token, at least a cooldown old, and adds one |
| Otp.FiveAnHour | backend/app/services/otp_service.py:100-101 | any six tokens issued in a row for an email and purpose span at least an hour |
| OtpAnswers.AnswersExactly | backend/app/services/otp_service.py:206-238 | over any run a code is accepted exactly when a token with the id and purpose is pending, not expired and has its digest; a wrong one leaves the stated number of attempts and the fifth locks; the limit is never found passed |
| OtpAnswers.RefusalsExactly | backend/app/services/otp_service.py:180-204 | over any run each refusal before the comparison is given exactly for its reason: no token, another purpose, verified, locked, cancelled or expired |
| OtpAnswers.SubmissionOverRuns | backend/app/services/otp_service.py:175-238 | over any run, field by field, what a submission does to the one token with its id, and that no other token moves |
| OtpAnswers.SentCodeIsAccepted | backend/app/services/otp_service.py:86-238 | round trip: the code that was sent, the first time it is submitted, is accepted exactly when at most four wrong ones came before it in time and it comes within five minutes; after five it is locked, after five minutes expired |
| OtpAnswers.IssuedExactly | backend/app/services/otp_service.py:99-124 | over any run a request is refused exactly while five were admitted within the hour, or the pair's pending token is less than a minute old, each with the whole seconds left; otherwise a token is issued unless its id is taken |
| OtpAnswers.IssuedToken | backend/app/services/otp_service.py:134-147 | the new token, field by field: pending, no attempts, five minutes to live |
| OtpAnswers.KeyNamesPair | backend/app/services/otp_service.py:100 | two pairs of email and purpose never share a counter |
| OtpAnswers.SixTokensSpanAnHour | backend/app/services/otp_service.py:100-101 | over any run, of the tokens of one pair any six created in a row span at least an hour |
| Sessions.SessionRepository.constructor | backend/app/repositories/session_repository.py:17-18 | a repository starts without rows |
| Sessions.SessionRepository.CreateSession | backend/app/repositories/session_repository.py:20-43 | a live row is added, or nothing if its identifier is taken |
| Sessions.SessionRepository.RotateSession | backend/app/repositories/session_repository.py:57-107 | the whole new table and the outcome; on reuse, every session of the owner is revoked and every other row is as it was; when each outcome is given and what becomes of each row is stated by RotationExactly and RotationEffects |
| Sessions.SessionRepository.RevokeSession | backend/app/repositories/session_repository.py:109-116 | the row's revocation time is set, also if it was revoked |
| Sessions.SessionRepository.RevokeAllUserSessions | backend/app/repositories/session_repository.py:118-126 | every live row of the user is revoked and no other row changes |
| Sessions.RotationKeepsInv | backend/app/repositories/session_repository.py:87-107 | an exchange keeps identifiers unique, links forward, injective and within one user, exchanges counted and live sessions within logins |
| Sessions.RunKeepsInv | backend/app/repositories/session_repository.py:20-126 | every run keeps that invariant |
| Sessions.ExchangedOnce | backend/app/repositories/session_repository.py:70-107 | over any run a refresh identifier is exchanged at most once, and a user's live sessions never exceed the logins |
| Sessions.ReplayTerminates | backend/app/repositories/session_repository.py:74-77 | reuse is detected exactly for an identifier found revoked, as every exchanged one is, and leaves its user without a live session and every other user's rows untouched |
| Sessions.LinksAreChains | backend/app/repositories/session_repository.py:88-91 | the successor links are acyclic and injective over any run |
| SessionAnswers.RotationExactly | backend/app/repositories/session_repository.py:70-105 | over any run, of the rows alone: a refresh is exchanged exactly when a row with the old identifier is unrevoked and unexpired and no row has the new one; expired, reused, unknown and duplicate identifiers are answered exactly so |
| SessionAnswers.RotationEffects | backend/app/repositories/session_repository.py:74-107 | over any run, field by field: the old row is revoked now and points to the new one, the new row is live, of the same user, with the presented hash and expiry and the presented or inherited address and agent; on expiry only that row is revoked, on reuse every live row of the user |
| SessionAnswers.LoginExactly | backend/app/repositories/session_repository.py:29-43 | a session is opened exactly when its identifier is unused, field by field, and nothing else changes |
| SessionAnswers.LogoutEffects | backend/app/repositories/session_repository.py:109-116 | over any run, revoking by identifier sets the time on that row and on no other |
| SessionAnswers.LogoutAllEffects | backend/app/repositories/session_repository.py:118-126 | revoking a user's sessions sets the time on exactly those not revoked yet |
| SessionAnswers.LoginIsRenewed | backend/app/repositories/session_repository.py:20-105 | round trip: a login can be renewed, whatever calls come between that spare it, until it expires and not after |
| Supersession.ThreeActors | backend/app/core/compliance/rule_supersession_service.py:85 | the set of three names has three members exactly when they are pairwise different |
| Supersession.ComplianceRuleRegistry.GetRule | backend/app/core/compliance/rule_registry.py:235-237 | something is found exactly when the identifier is registered, and it is the rule registered under it |
| Supersession.ComplianceRuleRegistry.RegisterOrUpdateRule | backend/app/core/compliance/rule_registry.py:254-257 | the rule replaces what its identifier held and nothing else changes |
| Supersession.RuleSupersessionService.ExecuteSupersession | backend/app/core/compliance/rule_supersession_service.py:65-295 | the whole new registry, events and seen keys, and the outcome, gate by gate; what is registered and recorded is stated field by field by CarriedOut, and what is refused by RefusedExactly |
| Supersession.CarriedOutExactly | backend/app/core/compliance/rule_supersession_service.py:84-151 | a request is carried out exactly when it passes the five gates and its key is new |
| Registration.CarriedOut | backend/app/core/compliance/rule_supersession_service.py:153-295 | field by field, what a request carried out leaves: the new rule, active exactly from its first day on, with its content, address, bundle and evidence identifiers and hashes; the old rule, superseded by version, time and reason exactly from that day on and otherwise as it was; every other rule unchanged; the event and what its hash covers; the key |
| Registration.StatusExactly | backend/app/core/compliance/rule_supersession_service.py:157-162 | of the pair exactly the new rule is active when it takes effect by today; otherwise it waits and the old one keeps its status |
| Registration.RefusedExactly | backend/app/core/compliance/rule_supersession_service.py:84-151 | which gate turns a request away, in order; nothing changes then, and a repeated one is answered with the rules registered and the first event of the pair |
| Registration.FirstEventExactly | backend/app/core/compliance/rule_supersession_service.py:147-149 | the event answered is the first of the pair in the log, and none exactly when there is none |
| Registration.EventsNameRequests | backend/app/core/compliance/rule_supersession_service.py:145-295 | over any run the i-th event names the i-th request carried out, and a key was seen exactly when such a request had it |
| Registration.DoneBeforeExactly | backend/app/core/compliance/rule_supersession_service.py:144-151 | over any run a request that passes the gates is answered as done exactly when one with its key was carried out before |
| Supersession.LineageHolds | backend/app/core/compliance/rule_supersession_service.py:145-253 | over any run whose accepted identifiers are unused, the lineage has no cycle, every forward pointer is answered by the pointer back, and every event has three actors |
| Supersession.ContentKeptExactly | backend/app/core/compliance/rule_supersession_service.py:222-253 | in any registry, a request carried out leaves every registered rule's hashed content alone exactly when its new identifier was unused or stood for the very content it asks to register, and that hash |
| Supersession.ContentNeverChanges | backend/app/core/compliance/rule_registry.py:58-73 | over any run with unused identifiers no registered rule's hashed content or hash ever changes |
| Supersession.RepeatChangesNothing | backend/app/core/compliance/rule_supersession_service.py:144-151 | a request once done changes nothing when repeated later, whatever came in between |
| Lineage.CycleExactly | backend/app/core/compliance/rule_supersession_service.py:223-253 | replacing a rule by one that supersedes another makes the lineage cyclic exactly when the rule replaced is that other one or one of its predecessors |
| Lineage.NoCycleExactly | backend/app/core/compliance/rule_supersession_service.py:65-253 | over any run from a seeded registry the lineage stays acyclic all along exactly when every request carried out spares the lineage of the rule it supersedes; no identifier is assumed unused |
| Lineage.MutualStepExactly | backend/app/core/compliance/rule_supersession_service.py:241-253 | a request keeps every forward pointer answered exactly when no rule but the old one pointed to the identifier it brings |
| Lineage.AnsweredExactly | backend/app/core/compliance/rule_supersession_service.py:65-253 | over any run from a seeded registry the forward pointers stay answered all along exactly when every request carried out does so |
| Lineage.RuleCanSupersedeItself | backend/app/core/compliance/rule_supersession_service.py:91-93 | a request whose two identifiers are the same is carried out and makes the rule its own predecessor |
| Supersession.KeyIsFaithful | backend/app/core/compliance/rule_supersession_service.py:145 | dates having no colons, every request that shares a request's key names the same old rule, new rule, version and date exactly when its identifiers and version have no colon |
| Supersession.KeyIsTakenForRepetition | backend/app/core/compliance/rule_supersession_service.py:144-151 | a different request under a used key that passes the gates is answered as already done, and nothing is registered |
| Supersession.ColonSwallowsAnother | backend/app/core/compliance/rule_supersession_service.py:144-151 | every request carried out with a colon in its new identifier or version swallows another one for another new rule, which stays unregistered |
| Supersession.ForwardPointer | backend/app/core/compliance/rule_supersession_service.py:157-162 | in any registry, the old rule points to the new one exactly when it takes effect today or earlier |
| Supersession.SupersedingAgainForgets | backend/app/core/compliance/rule_supersession_service.py:239-244 | superseding again a rule that has a successor takes its pointer away from that successor, which still points back, whether at once or from a future date |
| Supersession.FutureSupersessionForgets | backend/app/core/compliance/rule_supersession_service.py:241-244 | from a future date the rule keeps its status and is left without a pointer |
| Lineage.BackStepExactly | backend/app/core/compliance/rule_supersession_service.py:164-253 | a request keeps every pointer back answered exactly when, if it is carried out, it takes effect at once, brings another identifier than the old one, and no rule but the new one supersedes either of the two |
| Lineage.BackExactly | backend/app/core/compliance/rule_supersession_service.py:65-253 | over any run from a seeded registry the pointers back stay answered all along exactly when that holds of every request |
| Compensation.ClashIsSharedDay | backend/app/services/compensation_service.py:46-51 | the guard's arithmetic test is the existence of a common day |
| Compensation.CompensationService.CheckDateOverlap | backend/app/services/compensation_service.py:20-53 | the loop answers whether some other record of the employee clashes |
| Compensation.CompensationService.CreateCompensationVersion | backend/app/services/compensation_service.py:55-100 | the whole new table: the record appended under the next identifier, or nothing on an overlap |
| Compensation.RangesStayDisjoint | backend/app/services/compensation_service.py:69-83 | whatever is proposed in whatever order, no two records of an employee share a day |
| Compensation.TableOfProposals | backend/app/services/compensation_service.py:69-100 | after any creations the table is one record for every proposal that shares no day with one kept before for its employee, with all fields as proposed and numbered from one |
| Compensation.PayrollPicksTheRecordInForce | backend/app/services/payroll_service.py:105-112 | payroll is sure to pick the record in force exactly when no other record of the employee starts inside it by the pay date, and such a record can only have an empty range |
| Compensation.NonEmptyRangesAgree | backend/app/services/payroll_service.py:105-112 | with non-empty ranges payroll's pick contains the pay date exactly when some record does, and is then the only one that does |
| Compensation.ExpiredRecordIsPaid | backend/app/services/payroll_service.py:107-111 | an employee whose only record ended before the pay date is still paid from it |
| Compensation.EmptyRangeHidesRecord | backend/app/services/compensation_service.py:69-74 | an empty range passes the guard and hides the record in force: a concrete pair |
| Compensation.TotalRun | backend/app/services/payroll_service.py:92-197 | given answers the query may give, the loop makes one item for each employee with a record; each pays the monthly gross of a record payroll may pick, half of it as basic, a quarter as house rent, rounded half to even, and the rest as special, less what the calculation on that record's annual cost takes off; the eight totals are the column sums |
| Compensation.WhoIsPaid | backend/app/services/payroll_service.py:103-188 | an employee is paid as often as listed if a record was found, and not at all otherwise |
| Compensation.InForceIsPaid | backend/app/services/payroll_service.py:104-117 | after any creations with non-empty ranges, whoever has a record in force on the pay date is paid, and from that record |
| Compensation.RunConserves | backend/app/services/payroll_service.py:190-197 | over the run gross is net pay plus deductions, deductions are their three parts, and cost is gross plus the employer's share |
| Rupees.GroupDigits | backend/app/presentation/money.py:30-42 | the loop inserts the commas of the Indian grouping, and ends |
| Rupees.GroupShape | backend/app/presentation/money.py:34-41 | before the last three digits stand pairs, led by a group of one or two |
| PrintedRupees.GroupedCommas | backend/app/presentation/money.py:30-42 | a comma stands exactly where three, six, nine and so on characters are to its right, and without the commas the digits are those put in |
| Rupees.FormatInr | backend/app/presentation/money.py:5-48 | the loop and branches print the specified text |
| PrintedRupees.PrintedText | backend/app/presentation/money.py:5-48 | the printed text in parts: a minus exactly below zero, the rupee sign, the whole rupees with their commas and no leading zero, and, if asked for and the amount has decimals, a point and the paise nearest to the fraction |
| Rupees.CleanGrouped | backend/app/engine/payslip/payslip_extractor.py:133 | stripping takes exactly the grouping out again |
| Rupees.CleanConcat | backend/app/engine/payslip/payslip_extractor.py:133 | stripping two texts one after the other strips them apart |
| PrintedRupees.CleanCharacter | backend/app/engine/payslip/payslip_extractor.py:133 | and of a character it keeps exactly digits, points and minus signs |
| PrintedRupees.ReadsNumeralsExactly | backend/app/engine/payslip/payslip_extractor.py:134-137 | a stripped text is a number exactly when it is digits with at most one point and at most one minus in front |
| PrintedRupees.ParsedAmount | backend/app/engine/payslip/payslip_extractor.py:129-137 | the amount read is the paise nearest to that number, the even ones of two, under its sign |
| PrintedRupees.OtherTextIsNothing | backend/app/engine/payslip/payslip_extractor.py:131-137 | any other text reads as nothing |
| Rupees.PrintedIsReadBack | backend/app/engine/payslip/payslip_extractor.py:129-137 | an amount printed with paise reads back as itself rounded to paise exactly when its fraction of a rupee is below 0.995 |
| Rupees.RoundTrip | backend/app/presentation/money.py:5-48 | every signed amount of rupees and paise reads back as printed |
| Rupees.RupeesRoundTrip | backend/app/presentation/money.py:44-48 | printed without paise, an amount reads back with its fraction dropped towards zero |
| Rupees.FractionCanCarry | backend/app/presentation/money.py:28 | 1.999 prints a fraction of 100 and does not read back |
| Reconciliation.EvaluateMeans | backend/app/engine/payslip/tolerance_policy.py:80-102 | exact means equal, and critical means outside both the absolute and the relative tolerance |
| Reconciliation.CompareField | backend/app/engine/payslip/reconciliation_engine.py:174-221 | comparing with one reference after the other gives the field the status, code and counter increments that its values alone determine |
| Reconciliation.Reconcile | backend/app/engine/payslip/reconciliation_engine.py:173-268 | matched exactly when the formula holds, a reference exists and every field equals each reference it has; critical exactly when the formula fails or a field is out of tolerance; the critical count is the critical items, the warning count covers the warning items, and the codes are listed once each |
| Verdicts.ToleratedExactly | backend/app/engine/payslip/tolerance_policy.py:19-102 | the tolerance of each of the eight fields in rupees and in shares of the reference |
| Verdicts.FieldsCompared | backend/app/engine/payslip/reconciliation_engine.py:103-168 | which values of document, payroll and projection are compared, field by field |
| Verdicts.FieldExactly | backend/app/engine/payslip/reconciliation_engine.py:174-221 | the status of a field and each code it can get, exactly when it gets it; a field counts as a warning exactly when its code is a rounding variance |
| Verdicts.VerdictExactly | backend/app/engine/payslip/reconciliation_engine.py:238-249 | the verdict from the three records alone: critical exactly when the formula fails or some value is off its reference, matched exactly when every value equals every reference there is, unreconciled exactly when there is none |
| Verdicts.CodesExactly | backend/app/engine/payslip/reconciliation_engine.py:93-100 | the codes of a report, each once: missing references and a failed formula exactly when they are so, any other exactly when some field gets it |

## Left out

- Digests: SHA-256, HMAC and token hashes are parameters; only `TamperEvidence`, `AcceptedAgainstOneHead` and `TamperingIsNoticed` ask that they do not collide, and only on the events compared.
- Decimal context: amounts and rates are exact, so rounding at 28 significant digits is not captured; amounts finer than a paisa do not occur in tax, salary, compensation and payslip inputs.
- KeyIsFaithful: takes the date text to have no colon, as ISO dates have none.
- RedisRefinesMemory: is about atomic checks with exact instants; stalls between the Redis commands and the floating-point text of a timestamp are not modelled.
- WellFormed rule sets: `is_resident` is always true in the pipeline, as in its only call; rule sets whose bands overlap in more than an end point are not claimed anything of.
- TotalReliefBound: takes the single seeded 4% cess row.
- TaxFraction: says nothing of 45% below 250 rupees of income where no rebate applies; one rounding to ten rupees can exceed it there.
- The oracle's provident fund, professional tax and take-home figures: they follow other constants and are not compared.
- Tax trace, persistence, regime comparison and forecasts: they read the results modelled here.
- Audit aliases, chain naming by tenant, payload sanitizing and canonical JSON text: a request holds the resolved values.
- Audit trail queries, `auto_commit=False`, and processes that do not share the lock.
- One-time code generation, email normalization and message delivery; each call reads the clock once.
- Two-step rollback in issuing a token: the cancelling loop is modelled without a rollback, and `CooldownChangesNothing` shows that none is needed.
- Session reads and malformed identifiers.
- The database's order among equal keys: audit rows with one sequence number are taken in stored order, and every record with the latest start may be payroll's pick.
- Salary components of a compensation record, run hashes, period status and clearing of earlier items.
- Source registry lookups and the impact analyzer: their verdicts are part of a supersession request; an event identifier of 8 hexadecimal digits is taken to be new.
- Printing values that are not numbers, and digits outside ASCII when reading.
- Reconciliation notes, summary text and score; the relative tolerance is compared without the rounding of a division.
- Routes, templates, storage, migrations, extraction from PDF and images, email, search and chat.
