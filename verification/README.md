# FinAPI financial core in Dafny

FinAPI is a small web service. It answers requests for five things:

* a mortgage plan;
* a consumer credit plan;
* a savings projection;
* a savings-goal plan;
* a Monte Carlo projection of an investment.

It can also compare several scenarios of one product and recommend one of them.
This project models that core as pure Dafny functions over `real` money. The
parts it covers are:

* the request validity ranges;
* the four calculators (mortgage, credit, savings, goal), with every helper
  formula and month-by-month schedule;
* the deterministic parts of the Monte Carlo service: splitting the
  simulations over workers, the simulated paths, gathering the results, and
  the probabilities;
* the comparison service, with its strategy registry and its recommendation
  rules.

A Python exception is an `Err` value of `Outcomes.Result`:

* `DivisionByZero` for a `ZeroDivisionError`;
* `UnknownComparisonType` for the factory's `ValueError`;
* `ScenarioShapeMismatch` for an `AttributeError`;
* `IncomparableKeys` for `min`/`max` comparing `None` with a number.

Modules:

| module | file | models |
|---|---|---|
| `Enums` | enums.dfy | payment, capitalization and comparison kinds |
| `Outcomes` | outcomes.dfy | `Option`, `Result` and the error kinds |
| `Schemas` | schemas.dfy | request and response records; field ranges and the mortgage validator |
| `RateMath` | rate_math.dfy | powers, geometric sums, periodic deposits, rate and term conversions |
| `Amortization` | amortization.dfy | annuity and differentiated payments; the mortgage and credit schedule loops |
| `Mortgage` | mortgage.dfy | `calculate_mortgage` |
| `Credit` | credit.dfy | `calculate_credit` and its commission, insurance and total helpers |
| `Savings` | savings.dfy | `calculate_savings`: compound and simple growth, tax, inflation, yearly breakdown |
| `Goal` | goal.dfy | `calculate_goal`: required contribution, expected final amount, monthly breakdown |
| `MonteCarlo` | monte_carlo.dfy | worker split, paths, gathering, contributions, probabilities |
| `Strategies` | strategy.dfy | the four comparison strategies and their recommendations |
| `Factory` | factory.dfy | the strategy registry |
| `CompareService` | compare_service.dfy | the comparison endpoint |

Main results:

* Every repayment schedule repays exactly the amount borrowed, and its last
  balance is zero.
* Differentiated payments never increase.
* The credit schedule's fees sum to the reported insurance and commission,
  and its principals repay the effective amount, for both payment types.
  For an annuity credit the reported total also equals the sum of the
  schedule's payments. For a differentiated credit the reported total is
  the headline monthly payment (the first month's) times the months plus
  the commission, as the calculator reports it; since later payments are
  smaller, this is not the schedule's sum, and the model states no equality
  there.
* Compound savings equal depositing once per period.
* The goal calculator's required contribution reaches the goal.
* The Monte Carlo split over three workers gives the same result as one
  sequential run.
* A comparison recommends the first best scenario.

One consequence of the code is proved separately
(`CompareService.GoalComparisonNeedsContributions`). When a goal request has
no `monthly_contribution`, `calculate_goal` returns a plain mapping. The goal
recommendation then reads attributes of that mapping, which fails. So a goal
comparison succeeds only when every scenario supplies a monthly contribution.

## Model

| member | source | states |
|---|---|---|
| Schemas.ValidateMortgageRequest | models/schemas.py:15-47 | A request is accepted exactly when every field is in range and the down payment is below the price. The validator's error is returned exactly for in-range requests whose down payment reaches the price. |
| Schemas.ValidMortgageTerms | models/schemas.py:15-47 | A valid mortgage borrows a positive amount over 12 to 600 months at a positive monthly rate. |
| Schemas.ValidCreditMonths | models/schemas.py:169-207 | A valid credit term converts to between 3 and 360 whole months. |
| RateMath.MonthlyRate | services/v1/financial_calculator.py:222-223 | The monthly rate times 1200 gives back the annual percentage. |
| RateMath.AnnualRate | services/v1/financial_calculator.py:226-227 | The annual rate times 100 gives back the percentage. |
| RateMath.PercentOf | services/v1/financial_calculator.py:405-406 | The result times 100 is the amount times the percentage. The commission, the annual insurance and the savings tax (lines 361-365 and 432-436) are all computed this way. |
| RateMath.YearsToMonths | services/v1/financial_calculator.py:230-231 | The month count is `years*12` truncated toward zero. For non-negative input it is the largest whole number not above `years*12`. |
| RateMath.WholeYearsToMonths | services/v1/financial_calculator.py:230-231 | A whole number of years converts to exactly twelve months per year. |
| RateMath.DepositsClosedForm | services/v1/financial_calculator.py:534-538 | Depositing `c` each period at rate `r` for `n` periods gives `b0·(1+r)^n + c·(1 + … + (1+r)^(n-1))`. This is the closed form behind the annuity factor. |
| RateMath.GeomSumClosedForm | services/v1/financial_calculator.py:535-536 | The geometric sum times `(q - 1)` is `q^n - 1`, so `(q^n - 1)/r` is the sum of the growth factors. |
| RateMath.DepositsAtLeastPaidIn | services/v1/financial_calculator.py:320-328 | At a non-negative rate, deposits never grow to less than what was paid in. |
| Amortization.AnnuityPayment | services/v1/financial_calculator.py:244-248 | Division by zero exactly when `(1+r)^n = 1`. Otherwise the payment solves `A·((1+r)^n - 1) = P·r·(1+r)^n`. |
| Amortization.AnnuityDefinedIffPositiveRate | services/v1/financial_calculator.py:244-248 | For a non-negative rate and at least one month, the annuity formula is defined exactly when the rate is positive. |
| Amortization.MonthlyPayment | services/v1/financial_calculator.py:238-251 | Annuity uses the annuity formula. Differentiated fails exactly when there are no months; otherwise it is `loan/months + loan·rate`. |
| Amortization.InstallmentAt | services/v1/financial_calculator.py:265-272 | Each month's payment is principal plus interest. Annuity keeps the payment fixed; differentiated fixes the principal at `loan/months`. |
| Amortization.MortgageMonthAt | services/v1/financial_calculator.py:265-283 | Entry `i` is month `i+1`. Its reported balance is the balance after the month, floored at zero. |
| Amortization.MonthInterest | services/v1/financial_calculator.py:266-271 | A month's interest is the balance before that month times the monthly rate. |
| Amortization.MortgageSchedule | services/v1/financial_calculator.py:254-286 | One entry per month. Each entry is that month's installment, with a constant payment for annuity and a constant principal for differentiated. |
| Amortization.AnnuityBalanceClosedForm | services/v1/financial_calculator.py:262-274 | After `k` annuity months the balance is `L·(1+r)^k - A·(1 + … + (1+r)^(k-1))`. |
| Amortization.AnnuityScheduleClosesAtZero | services/v1/financial_calculator.py:244-274 | At a positive rate, the annuity payment brings the balance to exactly zero after the last month. |
| Amortization.PaymentsExceedLoan | services/v1/financial_calculator.py:238-251 | At a positive rate, payment times months exceeds the loan for both payment types. |
| Amortization.AnnuityExceedsLoan | services/v1/financial_calculator.py:244-248 | At a positive rate, annuity payment times months exceeds the loan. |
| Amortization.DifferentiatedBalanceClosedForm | services/v1/financial_calculator.py:269-274 | After `k` differentiated months the balance is `L - k·(L/n)`, that is `L·(n-k)/n`. |
| Amortization.PrincipalsTelescope | services/v1/financial_calculator.py:265-274 | The principals of months `k+1 … n` add up to the balance drop over those months. |
| Amortization.ScheduleRepaysLoan | services/v1/financial_calculator.py:254-286 | With the computed payment, the principals add up to the loan and the last balance is zero. |
| Amortization.DifferentiatedPaymentsNonIncreasing | services/v1/financial_calculator.py:269-272 | Differentiated payments never increase from month to month, and the first equals the headline monthly payment. |
| Amortization.DifferentiatedScheduleOrdered | services/v1/financial_calculator.py:269-272 | In a differentiated schedule, a later month never pays more than an earlier one. |
| Amortization.DifferentiatedFirstPayment | services/v1/financial_calculator.py:250-272 | The first differentiated payment equals `loan/months + loan·rate`, the headline figure. |
| Amortization.DifferentiatedPaymentsOrdered | services/v1/financial_calculator.py:269-274 | The installment after more months is at most the installment after fewer. |
| Amortization.DifferentiatedInstallmentMonotone | services/v1/financial_calculator.py:269-272 | A smaller outstanding balance never gives a larger differentiated payment. |
| Amortization.DifferentiatedBalanceFalls | services/v1/financial_calculator.py:270-274 | The differentiated balance never rises from month to month. |
| Amortization.AnnuityPrincipalClosedForm | services/v1/financial_calculator.py:262-274 | Month `k+1` of an annuity repays `(1+r)^k·(A - L·r)` of principal, so the principal part grows by the factor `1+r` each month. |
| Amortization.AnnuityAboveInterest | services/v1/financial_calculator.py:244-248 | For a positive loan at a positive rate, the annuity payment is above the interest on the whole loan. |
| Amortization.AnnuityPrincipalPositive | services/v1/financial_calculator.py:262-274 | With the computed payment, a positive loan and a positive rate, every annuity month lowers the balance. |
| Amortization.AnnuityBalanceFalls | services/v1/financial_calculator.py:262-274 | Under the same conditions, a later annuity balance is always strictly below an earlier one. |
| Amortization.CreditScheduleMirrorsMortgage | services/v1/financial_calculator.py:462-503 | The credit loop has the mortgage loop's month, principal, interest and balance. Its payment adds the fees: insurance every month, plus a positive commission in month 1. |
| Amortization.CreditSchedule | services/v1/financial_calculator.py:462-503 | One entry per month of the credit term. |
| Mortgage.CalculateMortgage | services/v1/financial_calculator.py:18-49 | The loan is price minus down payment and is positive. There are `12·years` schedule entries. The total is payment times months, and the interest is positive. |
| Mortgage.MortgageFor | services/v1/financial_calculator.py:23-48 | The response carries the defined payment, the total `payment·months`, interest `total - loan > 0`, and the schedule built from that payment. |
| Mortgage.MortgageScheduleRepays | services/v1/financial_calculator.py:35-41 | The returned schedule has one entry per month and repays the loan, ending at balance zero. Annuity payments equal the headline; differentiated payments start at the headline and never increase. |
| Credit.MonthlyInsurance | services/v1/financial_calculator.py:432-443 | With a positive insurance rate, monthly insurance is one twelfth of the annual percentage of the amount. Otherwise it is zero. |
| Credit.CommissionWithinAmount | services/v1/financial_calculator.py:405-413 | For a valid request the commission is below the amount, so the amount that earns interest is positive. |
| Credit.CalculateCredit | services/v1/financial_calculator.py:109-173 | Division by zero exactly for an annuity credit at rate 0. Otherwise all headline figures agree with the payment on the effective amount. |
| Credit.CreditFeesTotal | services/v1/financial_calculator.py:486-488 | The schedule's fees add up to insurance times months plus the commission. |
| Credit.CreditScheduleFees | services/v1/financial_calculator.py:486-488 | Every month pays the insurance, and only month 1 also pays a positive commission. |
| Credit.CreditPrincipalTotal | services/v1/financial_calculator.py:474-484 | The credit schedule repays exactly the effective amount and ends at balance zero. |
| Credit.CreditAnnuityTotal | services/v1/financial_calculator.py:138-143 | For an annuity credit, the schedule's payments add up to the reported total: monthly payment with insurance, times months, plus commission. |
| Credit.CreditParts | services/v1/financial_calculator.py:109-173 | A computed credit has at least 3 months and a commission below the amount. The response's payment, total and schedule come from the effective amount. |
| Savings.PeriodsPerYear | services/v1/financial_calculator.py:289-299 | Daily capitalization adds interest 365 times a year, monthly 12, quarterly 4 and yearly once. No capitalization has no period count. |
| Savings.DepositPerPeriod | services/v1/financial_calculator.py:313-318 | Over a year, the per-period deposits add up to twelve monthly deposits. |
| Savings.FutureValue | services/v1/financial_calculator.py:311-328 | The closed-form balance fails with division by zero exactly when a positive deposit meets a zero period rate. |
| Savings.FutureValueReplaysDeposits | services/v1/financial_calculator.py:311-328 | For a non-negative deposit, the closed form equals growing the balance one period at a time and adding the deposit at each period's end. |
| Savings.CompoundSavings | services/v1/financial_calculator.py:302-328 | Division by zero exactly when the rate is zero and there is a positive deposit. |
| Savings.CompoundSavingsReplaysDeposits | services/v1/financial_calculator.py:302-328 | The compound formula equals depositing the per-period amount at the end of each period. |
| Savings.FinalAmount | services/v1/financial_calculator.py:60-71 | Fails exactly for compounding at rate 0 with positive deposits. |
| Savings.FinalAmountValue | services/v1/financial_calculator.py:56-71 | With a capitalization, the final amount is the period-by-period balance, using that capitalization's period count, the per-period deposit and the annual rate split over the periods. Without one, it is simple interest over `12·years` months. |
| Savings.FinalAmountWithoutRate | services/v1/financial_calculator.py:56-71 | At rate 0 the final amount is exactly the contributions, whatever the capitalization. |
| Savings.SimpleSavings | services/v1/financial_calculator.py:331-343 | The simple-interest amount is what was paid in plus `rate·years·(initial + monthly/2)`. At rate 0 it is exactly what was paid in. |
| Savings.TotalContributions | services/v1/financial_calculator.py:346-351 | With non-negative deposits the contributions are at least the initial sum. With no months they are the initial sum. |
| Savings.AdjustForInflation | services/v1/financial_calculator.py:368-376 | Inflation of 0 or less leaves the amount unchanged. Inflation up to 100 % keeps a non-negative amount between zero and its nominal value. |
| Savings.InflationCompoundsYearly | services/v1/financial_calculator.py:368-376 | After no years the amount is unchanged. With positive inflation, each further year multiplies the real amount by `1 - inflation/100`. |
| Savings.YearlyRow | services/v1/financial_calculator.py:386-391 | A year adds twelve deposits plus that year's interest to the running amount. At rate 0 the interest is zero; with non-negative inputs it is non-negative. |
| Savings.YearlyBreakdown | services/v1/financial_calculator.py:379-402 | One row per year, numbered from 1. Row `i` is the year computed on the amount reached after `i` years. So it holds twelve deposits, that year's interest on the running amount, and the running amount after the year. |
| Savings.YearlyAmountGrows | services/v1/financial_calculator.py:386-391 | At non-negative rates the yearly amount never falls and never lags what was paid in. |
| Savings.YearlyAmountWithoutRate | services/v1/financial_calculator.py:386-391 | At rate 0 the yearly amount after `y` years equals the total contributions of `12·y` months. |
| Savings.CalculateSavings | services/v1/financial_calculator.py:52-106 | Division by zero exactly for a capitalized request at rate 0 with positive top-ups. Otherwise the interest and tax are non-negative, and the real amount never exceeds the nominal one. At rate 0 there is no interest and no tax, and the nominal amount equals the contributions. |
| Savings.FinalAmountCoversContributions | services/v1/financial_calculator.py:60-77 | The final amount is never below the total contributions. |
| Savings.SimpleCoversContributions | services/v1/financial_calculator.py:331-343 | Simple interest never ends below what was paid in. |
| Savings.CompoundCoversContributions | services/v1/financial_calculator.py:302-328 | Compound growth never ends below what was paid in. |
| Savings.CompoundCoversDeposits | services/v1/financial_calculator.py:302-328 | At non-negative rates, compound growth never ends below the initial amount plus all per-period deposits. |
| Savings.DepositsPayInTopUps | services/v1/financial_calculator.py:313-318 | Over the whole term, the per-period deposits add up to the monthly deposit times the number of months. |
| Savings.FiguresBounded | services/v1/financial_calculator.py:73-101 | Figures derived from a final amount that covers the contributions have non-negative interest and tax, and a real amount at most the nominal one. At rate 0 they have no interest and no tax. |
| Goal.AnnuityFactor | services/v1/financial_calculator.py:535-536 | `((1+r)^n - 1)/r` is the sum of the first `n` growth factors. |
| Goal.ExpectedFinal | services/v1/financial_calculator.py:528-538 | Division by zero exactly at rate 0. Otherwise the result is the balance after depositing the contribution at the end of each month. |
| Goal.RequiredMonthly | services/v1/financial_calculator.py:506-525 | Division by zero exactly when there are no months. At a positive rate the result is never negative. |
| Goal.FactorVanishesIffNoMonths | services/v1/financial_calculator.py:515-522 | At a positive rate the annuity factor is zero exactly when there are no months. |
| Goal.RequiredMonthlyReachesGoal | services/v1/financial_calculator.py:506-538 | At a positive rate, a positive required contribution makes the expected final amount equal the goal. The required amount is 0 exactly when the savings alone reach the goal. |
| Goal.GoalBreakdown | services/v1/financial_calculator.py:541-568 | One row per month, each holding the plan balance after that month. |
| Goal.GoalBalanceIsAnnuityDue | services/v1/financial_calculator.py:552-557 | The breakdown deposits before adding interest, so its balance equals end-of-month deposits of `c·(1+r)`. |
| Goal.PlanIsGrownExpectedFinal | services/v1/financial_calculator.py:541-568 | The breakdown's final balance is the expected final amount for contribution `c·(1+r/12)`, not for `c`. |
| Goal.ZeroRatePlan | services/v1/financial_calculator.py:552-557 | At rate 0 the plan balance is savings plus the contributions so far. |
| Goal.ZeroRateRequiredReachesGoal | services/v1/financial_calculator.py:525 | At rate 0 the required contribution makes the breakdown end exactly at the goal. |
| Goal.CalculateGoal | services/v1/financial_calculator.py:176-219 | Fails exactly for a given contribution at rate 0. The required figure is present exactly when no contribution is given, and the expected figure exactly when one is. There is one breakdown row per month. |
| Goal.GoalParts | services/v1/financial_calculator.py:176-219 | Each branch reports its figure and a breakdown computed from the contribution it uses. |
| MonteCarlo.SharesBalanced | services/v1/montecarlo_service.py:27-33 | Worker shares differ by at most one, do not increase by worker index, and add up to the simulation count. |
| MonteCarlo.SharesPartition | services/v1/montecarlo_service.py:27-48 | The workers that start get positive shares adding up to the simulation count. With at least three simulations all three start. |
| MonteCarlo.WorkerShare | services/v1/montecarlo_service.py:27-33 | A worker's share is the even share of the simulations, or one more. |
| MonteCarlo.Shares | services/v1/montecarlo_service.py:30-35 | At most three workers start, and each started worker has at least one simulation. |
| MonteCarlo.Path | services/v1/montecarlo_service.py:156-174 | A path starts at the initial amount and has one more point than there are months. |
| MonteCarlo.PathStep | services/v1/montecarlo_service.py:166-172 | Each point is the previous one plus the contribution, grown by that month's return. |
| MonteCarlo.PathUnderConstantReturns | services/v1/montecarlo_service.py:163-172 | With a constant return `r`, the path is the deposit recurrence with contribution `c·(1+r)`. |
| MonteCarlo.RunSimulations | services/v1/montecarlo_service.py:131-153 | One path and one final amount per draw sequence, in order. Each final amount is the path's last point. |
| MonteCarlo.Split | services/v1/montecarlo_service.py:32-48 | Cutting the draws into chunks of the given sizes loses and reorders nothing. |
| MonteCarlo.RunEach | services/v1/montecarlo_service.py:37-50 | Each chunk is simulated on its own. |
| MonteCarlo.RunAppend | services/v1/montecarlo_service.py:139-153 | Simulating two batches in a row equals concatenating their results. |
| MonteCarlo.Gather | services/v1/montecarlo_service.py:52-56 | The first worker's final amounts and paths come first in the gathered result. |
| MonteCarlo.GatherRunsFlatten | services/v1/montecarlo_service.py:52-56 | Gathering the chunk results in order equals one run over all the draws. |
| MonteCarlo.ParallelRun | services/v1/montecarlo_service.py:27-56 | The workers together produce exactly one final amount and one path per simulation. |
| MonteCarlo.ParallelMatchesSequential | services/v1/montecarlo_service.py:27-56 | The three-worker split plus the ordered gather gives exactly the sequential result. |
| MonteCarlo.PrepareParameters | services/v1/montecarlo_service.py:124-128 | The monthly rate is the average return divided by 1200, and the months are `12·years`. |
| MonteCarlo.TotalContributions | services/v1/montecarlo_service.py:199-203 | With non-negative deposits, total contributions are at least the initial amount. |
| MonteCarlo.Percent | services/v1/montecarlo_service.py:212-218 | A share of the finals, as a percentage between 0 and 100. |
| MonteCarlo.PercentScales | services/v1/montecarlo_service.py:212-218 | The percentage times the number of finals is 100 times the count. |
| MonteCarlo.CalculateProbabilities | services/v1/montecarlo_service.py:206-221 | Loss and negative return are the percentages of finals below contributions and below the initial amount. A goal probability is reported exactly for a nonzero goal, as the percentage of finals at or above it. |
| MonteCarlo.CountBelowMonotone | services/v1/montecarlo_service.py:212-213 | A higher bound never counts fewer finals below it. |
| MonteCarlo.CountsComplement | services/v1/montecarlo_service.py:212-218 | Below and at-or-above a bound together count every final once. |
| MonteCarlo.NegativeReturnWithinLoss | services/v1/montecarlo_service.py:211-214 | When contributions are at least the initial amount, the negative-return probability never exceeds the loss probability. |
| MonteCarlo.ReachGoalComplement | services/v1/montecarlo_service.py:216-219 | Reaching the goal and staying below it have probabilities adding to 100 %. |
| MonteCarlo.LossExtremes | services/v1/montecarlo_service.py:212 | Loss is 0 % when every final covers the contributions, and 100 % when none does. |
| MonteCarlo.PercentMonotone | services/v1/montecarlo_service.py:212-218 | A larger count gives a larger or equal percentage. |
| MonteCarlo.PercentComplement | services/v1/montecarlo_service.py:212-218 | Counts that add up to the total give percentages adding up to 100. |
| MonteCarlo.PercentExtremes | services/v1/montecarlo_service.py:212-218 | None of the finals is 0 % and all of them is 100 %. |
| MonteCarlo.Simulate | services/v1/montecarlo_service.py:17-81 | The response carries the sequential paths and finals and contributions of at least the initial amount. Its probabilities are the shares computed over exactly those simulated finals and those contributions. The negative-return probability never exceeds the loss probability, and a goal probability is present exactly when a goal is given. |
| MonteCarlo.ConstantReturnsFinals | services/v1/montecarlo_service.py:131-174 | With a constant return, every final amount is the deposit recurrence at that rate. |
| MonteCarlo.RisklessFinals | services/v1/montecarlo_service.py:124-174 | With zero spread (every return equal to the average), every simulated final is the closed-form deposit result. |
| Strategies.Calculate | services/v1/compare_service/strategy.py:32-73 | Each strategy runs its own calculator and passes its error through. Data of another product fails with an attribute error. A goal without a contribution yields the plain-mapping record. |
| Strategies.FirstMin | services/v1/compare_service/strategy.py:41 | Picks the first position holding the least key. |
| Strategies.FirstMax | services/v1/compare_service/strategy.py:65 | Picks the first position holding the greatest key. |
| Strategies.FirstMinUnique | services/v1/compare_service/strategy.py:41 | A first least position is the one `min` picks. |
| Strategies.FirstMaxUnique | services/v1/compare_service/strategy.py:65 | A first greatest position is the one `max` picks. |
| Strategies.KeysOf | services/v1/compare_service/strategy.py:41 | Keys are read exactly when every result has the attribute; otherwise there is an attribute error. |
| Strategies.OptionalKeysOf | services/v1/compare_service/strategy.py:77-86 | Reads the keys left to right as `min` and `max` do. A missing attribute fails with an attribute error exactly when every earlier key was read cleanly. From the second key on, a `None` key or a `None` first key fails as incomparable. The keys come back in order. |
| Strategies.LaterKeys | services/v1/compare_service/strategy.py:77-86 | The scan from position `k` on succeeds exactly when every later key can be read and compared. Its attribute error is the first defect in that scan. |
| Strategies.MinBy | services/v1/compare_service/strategy.py:40-41 | Succeeds exactly when every result has the key, and returns the first least one. |
| Strategies.RecommendIndex | services/v1/compare_service/strategy.py:40-86 | An empty list fails, and any recommendation is a position in the list. |
| Strategies.Recommendation | services/v1/compare_service/strategy.py:40-86 | The recommended entry is one of the results. |
| Strategies.CheapestRecommended | services/v1/compare_service/strategy.py:40-53 | Mortgage and credit comparisons recommend the first scenario with the least total payment. |
| Strategies.RichestRecommended | services/v1/compare_service/strategy.py:63-65 | Savings comparisons recommend the first scenario with the greatest total interest. |
| Strategies.GoalRecommended | services/v1/compare_service/strategy.py:75-86 | When every response carries an expected amount, as the goal calculator's responses do, any plain-mapping result fails. If the first result has an expected amount, the first greatest one wins. Otherwise the first least required contribution wins. Mixing `None` into a `max` fails. |
| Strategies.RecordBlocksRecommendation | services/v1/compare_service/strategy.py:75-86 | A plain-mapping result anywhere in a goal comparison keeps any recommendation from being made, since its attribute cannot be read. |
| Factory.Register | services/v1/compare_service/factory.py:17-23 | The type maps to the new strategy and no other entry changes. |
| Factory.Create | services/v1/compare_service/factory.py:25-30 | Fails with unknown-type exactly when the type is unregistered; otherwise returns the registered strategy. |
| Factory.CreateAfterRegister | services/v1/compare_service/factory.py:17-30 | Creating a type just registered returns that strategy. Other types are unaffected. |
| Factory.DefaultRegistry | services/v1/compare_service/factory.py:33-49 | Every comparison type is registered, each to its own product's strategy. |
| Factory.EveryTypeListed | models/enums.py:19-23 | The four comparison kinds are all the kinds there are. |
| Factory.DefaultCreateTotal | services/v1/compare_service/factory.py:33-49 | With the default registrations, creating any comparison type succeeds. |
| CompareService.CalculateAll | services/v1/compare_service/compare_service.py:14-21 | All scenarios are calculated in order under their names. The first failing scenario's error is the result. |
| CompareService.Comparison | services/v1/compare_service/compare_service.py:11-29 | An unregistered type fails. A response echoes the type and has one named result per scenario, in order, and recommends one of the scenario names. |
| CompareService.MismatchedScenarioFails | services/v1/compare_service/compare_service.py:12-19 | One scenario of the wrong product makes the whole comparison fail. |
| CompareService.MortgageComparisonRecommendsCheapest | services/v1/compare_service/compare_service.py:11-29 | When every scenario is a mortgage request, the comparison succeeds and recommends a scenario whose total payment is least. |
| CompareService.GoalComparisonNeedsContributions | services/v1/compare_service/compare_service.py:11-29 | A goal comparison succeeds only if every scenario is a goal request with a monthly contribution. |

## Left out

- Rounding: responses round money to two decimals with `round(x, 2)`. The model keeps exact reals, so every figure is the unrounded value.
- Floating point: `real` is exact. Overflow, `inf` and `nan` are not modelled.
- Random draws: `np.random.Generator().normal(rate, risk)` and the `sqrt(12)` risk scaling are replaced by an input sequence of monthly returns per path (`MonteCarlo.ReturnsFit`). As written, services/v1/montecarlo_service.py:167 constructs `np.random.Generator()` without the bit generator NumPy's constructor requires, so the source raises `TypeError` in month 1 of every path and `simulate` never returns a response for a valid request (every valid request has at least 12 months). `MonteCarlo.Simulate` instead gives the result that the returns of a working generator, such as one from `np.random.default_rng()`, would produce.
- Statistics, percentiles and the distribution histogram (numpy mean, median, std, percentile, histogram) are not modelled.
- Concurrency: the `asyncio` executor is modelled as its deterministic result (split, run each chunk, gather in task order). Scheduling is not modelled.
- The `WORKERS_CNT == 1` branch and `_sync_simulate`: the constant is 3, so the branch is dead.
- Empty results: with no simulations, numpy returns `nan` for the mean. `MonteCarlo.CalculateProbabilities` requires at least one final amount; a valid request has at least ten.
- Request parsing: pydantic parsing, defaults and union resolution of scenario data are not modelled. Calculators receive requests that already satisfy the `Valid*Request` ranges.
- `payment_day` on credit requests is range-checked but unused by the calculator, so it is not in the model.
- The `total_insurance` argument passed to `CreditResponse` is not a schema field, so the response does not carry it.
- The enums' string values, routers, `main`, and the service interfaces are wiring, not logic.
- Strategies.GoalRecommended: states its plain-mapping outcome only for the results the goal calculator produces. For any other mix of defects, the error order is stated by `Strategies.OptionalKeysOf`.
- Amortization.CreditSchedule: its own contract states only the length. The contents are stated by `Amortization.CreditScheduleMirrorsMortgage`.
- MonteCarlo.WorkerShare, MonteCarlo.Shares, MonteCarlo.Gather, MonteCarlo.ParallelRun: their own contracts state bounds, order and counts only. `MonteCarlo.SharesBalanced`, `MonteCarlo.SharesPartition`, `MonteCarlo.GatherRunsFlatten` and `MonteCarlo.ParallelMatchesSequential` state what they compute.
- MonteCarlo.CountBelow, MonteCarlo.CountAtLeast: their own contracts state only a bound. Their meaning is stated by the complement, monotonicity and extreme-value lemmas.
