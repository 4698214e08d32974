# Verified model of the DAOF-CPA money subsystem

This project models the part of DAOF-CPA that moves money, and proves what its handlers
guarantee over every run: top-up orders and their three-phase webhooks, manual payments, partial
refunds, purchases with coupons, admin grants, cancellation, subscription refunds, revocation,
reconciliation, usage resets, signup and referral bonuses and the paid-spend reward. Four smaller
cores stand beside it: the money arithmetic, the strict RMB parser, the `tmp_token` text, the
attribution of upstream usage records, and the billing-rule schedule.

Amounts are integers: fen (RMB * 100) or micro-USD. Mathematical integers stand for `big.Int`;
int64 bounds are explicit where the source checks them.

## How it is built

- `Model.dfy` holds one committed database state as a value (`DB`). A row's id is its position.
  `linkIndex` says whether the partial unique index on `(related_type, related_id, entry_type)` of
  database/sqlite.go:242-244 is installed; everything is proved for both.
- `Ledger.dfy`, `Topups.dfy`, `Rewards.dfy`, `Subscriptions.dfy`, `Charges.dfy`, `UsageReset.dfy`
  specify each transaction as a function from a state to a commit or an abort with its reason.
- `Service.dfy` is the imperative form: a class whose fields are the tables and whose methods take
  the handlers' steps, loops and rollbacks. Each method is proved to do exactly what its
  specification says, including the returned error.
- `Invariants.dfy` states the invariant; `TopupProofs.dfy`, `RewardProofs.dfy`,
  `PurchaseProofs.dfy`, `SubscriptionProofs.dfy`, `ChargeProofs.dfy` and `UsageReset.dfy` prove that
  each transaction keeps it and exactly when it commits. `Effects.dfy` says whose money moves
  within one transaction.
- `Evolution.dfy` is the two-state relation "nothing is undone"; `Runs.dfy` lets handlers
  interleave, a handler that reads before its transaction keeping the stale copy in a slot of its
  own; `Theorems.dfy`, `Movements.dfy`, `Accounts.dfy` and `OrderLifecycle.dfy` draw the conclusions
  for every reachable state and every run.
- `RmbCodec.dfy`, `TmpToken.dfy`, `Attribution.dfy`, `BillingRules.dfy`, `Ids.dfy`, `Summary.dfy`
  are the smaller cores; `UsageRuns.dfy` lets any number of usage syncs interleave.
- `TopupDecisions.dfy`, `RewardDecisions.dfy`, `PurchaseDecisions.dfy`, `ChargeDecisions.dfy`,
  `ResetDecisions.dfy` and `MatchDecisions.dfy` say, against references of their own, what each
  operation decides: which callback pays, what a unit costs, which reward is due, which rows a reset
  or a match concerns. They write conditions and amounts out, so they fix what the helpers of the
  specifications compute.

## What the proofs found

- With the unique ledger index installed, a second partial refund of an order always rolls back
  (`TopupProofs.RefundCommits`), although `TestAdminRefund_MultiplePartialReclaimMatchesLockedAmount`
  in controller/topup_integration_test.go expects it to work; that test's database has no such index.
- With the same index, a signup bonus for a user makes every later referrer bonus for that user roll
  back (`Evolution.SignupBonusBlocksReferral`, over runs `Theorems.SignupBonusBlocksForGood`), and a
  referrer can bring in only one user who is due a referee bonus (`Evolution.SecondReferralBlocked`,
  `Theorems.SecondReferralBlocksForGood`).
- A package without a cost floor gets its list price as the coupon lower bound, so a coupon saves
  nothing on it (`PurchaseProofs.CouponRespectsFloor`); database/subscription_schema.go:100-103
  describes 0 as "skip the check". The model follows the code.
- An admin grant takes everything from the package row read inside its transaction except the
  length, which is still that of the copy read before (`PurchaseProofs.GrantLengthIsStale`).
- A paid order stays paid or refunded if and only if no later step is the write after a gateway
  error for it, which is not guarded (`OrderLifecycle.PaidUnlessGatewayError`). After such a write it
  keeps its credit and can no longer be refunded (`Theorems.PaidOrderCanFail`).
- A webhook receipt is consumed even if the event is never credited (`Theorems.NonceConsumed`). An
  order that waited past the time limit is canceled and then never credited, by a callback or by hand
  (`TopupProofs.FinalizeCommits`, `TopupProofs.MarkPaidCommits`, `Theorems.CreditedOnce`). A configured
  limit below 5 minutes counts as 30 (proxy/subscription_cron.go:120-133), where the comment there
  speaks of a lower bound of 5.
- A cancellation checked before a scheduled revision took effect can be written after it became
  active; over every run that is the only way (`BillingRules.UncancelledUnlessStale`). An immediate
  publication can be replaced by something older in two ways: a cron that picked its revision before
  the publication writes after it, or the publication failed to cancel a later revision, which is
  only logged, and the cron finds that revision due. Over every run these are the only ways
  (`BillingRules.PublishedStays`), and a publication is safe without stale cron writes if and only if
  it left nothing behind (`BillingRules.UndividedIsSafe`).
- The attribution query looks at the fifty newest logs only, so the chosen log is the nearest of all
  candidates while at most fifty pass the filters (`Attribution.QueryComplete`,
  `Attribution.NearestOverall`).
- A usage reset that names only id 0 filters nothing, because ids equal to 0 are dropped before the
  lists are tested for emptiness (`UsageReset.ZeroIdsFilterNothing`).

## Model

| member | source | states |
|---|---|---|
| Money.ProratedRounds | controller/topup_money.go:258-280 | on every refundable triple the shortcut branches and the int64 check agree with half-up rounding: the result exists, lies in [0, amount], is within half a micro of the exact share and hits both end points |
| Money.ProratedDomain | controller/topup_money.go:258-267 | for int64 amounts the function succeeds exactly on positive amounts with 0 <= refunded <= paid |
| Money.ProratedMonotone | controller/topup_money.go:258-280 | refunding more never returns less |
| Money.RoundingUnique | controller/topup_money.go:271-280 | the half-up rounding is a single integer |
| Money.ChainTelescopes | controller/topup_admin.go:546-556 | the rounded shares of any increasing chain of refunds add up to the difference of its end points, to the whole amount for a full refund |
| Money.ConversionIsFloor | controller/topup_money.go:146-157 | the locked amount is v exactly when v is the positive int64 with rate * v <= fen * 10^10 < rate * (v + 1) |
| Money.CheckedMulExact | database/money.go:135-152 | the divide-back test accepts exactly the products that fit int64 and returns them |
| Money.CheckedAddExact | database/money.go:154-162 | the sign test rejects exactly the sums that leave int64 |
| Money.CheckedSum | database/money.go:164-174 | the loop returns the sum of prices exactly when it fits int64 |
| Ledger.BalancedPost | database/billing_helper.go:58-108 | one quota movement with its entry keeps every quota equal to the sum of its entries and every recorded balance equal to the running sum |
| Ledger.BalanceIsSumOfKinds | controller/billing.go:399-427 | a user's balance is the sum of the totals by entry type |
| Invariants.NeutralPost | database/billing_helper.go:58-108 | credits, guarded debits and zero entries keep the whole invariant |
| TopupProofs.CreateOrderKeeps | controller/topup.go:126-180 | a new order starts waiting, uncredited and unrefunded, and keeps the invariant |
| TopupProofs.FailOrderKeeps | controller/topup.go:201-232 | the unguarded failure write keeps the invariant whatever the order's state |
| TopupProofs.LapseKeeps | proxy/subscription_cron.go:98-116 | canceling the orders that waited too long keeps the invariant and touches no order that was ever paid |
| TopupProofs.FinalizeKeeps | controller/payment_webhook.go:227-287 | crediting from a stale order copy keeps the invariant |
| TopupProofs.FinalizeCommits | controller/payment_webhook.go:240-254 | the webhook transaction commits exactly while the order is still waiting |
| TopupProofs.MarkPaidKeeps | controller/topup_admin.go:231-330 | marking an order paid by hand keeps the invariant |
| TopupProofs.MarkPaidCommits | controller/topup_admin.go:231-271 | it commits exactly when the order waits and the external reference is new |
| TopupProofs.RefundKeeps | controller/topup_admin.go:486-649 | a partial refund by an admin with a stale copy keeps the invariant |
| TopupProofs.RefundCommits | controller/topup_admin.go:486-577 | a refund commits exactly on a paid order, an amount within the remainder, a new reference and no reclaim block; with the ledger index only if the order was never refunded |
| TopupProofs.ShareOfRow | controller/topup_admin.go:533-556 | the refund share exists exactly for 0 < fen <= remaining and moves the refunded micro-USD to the prorated new total |
| RewardProofs.RewardBounds | database/referral_reward.go:87-170 | a reward lies between 0 and the paid part used up, which lies within the spend |
| RewardProofs.PaidPartIsFloor | database/referral_reward.go:106-134 | paid credit is used up last: only the shortfall of the balance against it counts |
| RewardProofs.SpendRewardKeeps | database/referral_reward.go:87-198 | the paid-spend reward keeps the invariant |
| RewardProofs.CreateUserKeeps | controller/oauth.go:458-500 | registration always commits and keeps the invariant |
| RewardProofs.ReferralBonusesCommit | controller/oauth.go:560-613 | referral bonuses are paid exactly when the ledger index has no earlier bonus with either link |
| Evolution.SignupBonusBlocksReferral | controller/oauth.go:458-613 | with the index, in every state that evolves from a registration with a signup bonus, a referrer bonus for that user and a referee bonus through that user roll back |
| Evolution.SecondReferralBlocked | controller/oauth.go:588-609 | with the index, in every state that evolves from a referral with a referee bonus, the referrer's next one rolls back |
| Theorems.SignupBonusBlocksForGood | controller/oauth.go:458-613 | the same over every run, from the step of the registration on |
| Theorems.SecondReferralBlocksForGood | controller/oauth.go:588-609 | the same over every run, from the step of the first referral on |
| PurchaseProofs.MaxIsCount | controller/subscription_snapshot.go:144-153 | MAX(stack_index) + 1 is one more than the number of subscriptions |
| PurchaseProofs.UnitsCommit | controller/subscription_purchase.go:296-334 | the rolling entries never hit the ledger index and together move exactly their sum |
| PurchaseProofs.UnitsKeep | controller/subscription_purchase.go:296-334 | they bring the ledger up to date unit by unit without taking the quota below zero |
| PurchaseProofs.PurchaseKeeps | controller/subscription_purchase.go:165-360 | a purchase commits exactly when every check passes, and keeps the invariant |
| PurchaseProofs.PurchaseConserves | controller/subscription_purchase.go:226-311 | it debits exactly the sum of the prices it records, which with the coupon's saving is quantity times list price, and never overdraws |
| PurchaseProofs.CouponRespectsFloor | controller/coupon.go:98-106 | the coupon's unit is at or above the cost floor exactly when the list price is; without a floor it costs the list price |
| PurchaseProofs.PurchaseWithinLimit | controller/subscription_purchase.go:206-224 | after the commit the active count is within the limit of the freshly read package |
| PurchaseProofs.GrantKeeps | controller/subscription_grant.go:266-388 | a grant commits exactly when its checks pass, moves no quota and writes one zero entry per unit |
| PurchaseProofs.GrantWithinLimit | controller/subscription_grant.go:305-331 | after a grant commits the active count is within the fresh limit |
| PurchaseProofs.GrantLengthIsStale | controller/subscription_grant.go:228-318 | granted subscriptions run for the fresh period exactly when the copy's period is unchanged |
| SubscriptionProofs.CancelKeeps | controller/subscription.go:157-168 | a cancellation commits exactly on an active subscription |
| SubscriptionProofs.SubRefundKeeps | controller/subscription_admin.go:93-210 | checks on the stale copy suffice: the refund commits exactly while the row is refundable |
| SubscriptionProofs.RevokeKeeps | controller/subscription_admin.go:351-403 | a revocation commits exactly on a granted subscription that is active or paused |
| SubscriptionProofs.RevokeCouponKeeps | controller/coupon.go:788-810 | revoking a live coupon keeps the invariant |
| SubscriptionProofs.GrantCouponsKeep | controller/coupon.go:620-660 | a batch commits exactly when template and all users are usable, and gives each user qty coupons per mention |
| SubscriptionProofs.BulkGrantShares | controller/coupon.go:596-660 | after deduplication everyone named gets exactly qty coupons, nobody else any |
| ChargeProofs.ConsumeKeeps | proxy/text_billing.go:690-800 | charging an API turn, or leaving it pending, keeps the invariant |
| ChargeProofs.ReconcileKeeps | controller/billing_reconcile.go:124-224 | a reconciliation commits exactly on an open, unreconciled entry and, if it charges, a positive cost within the cap and the quota |
| UsageReset.MatchedExactly | controller/subscription_admin_reset.go:289-302 | exactly the subscriptions in scope are matched, each once, ascending |
| UsageReset.ZeroIdsFilterNothing | controller/subscription_admin_reset.go:241-302 | a list of zeros resets like no list; a list that names an id filters by it |
| UsageReset.ResetKeeps | controller/subscription_admin_reset.go:76-201 | a reset commits exactly up to 10000 matches, clears exactly the counters of plans in matched snapshots, moves no window and writes one zero entry per match |
| Effects.RefundMoves | controller/topup_admin.go:548-646 | a refund moves exactly the rounded share, out of quota only if reclaimed, out of paid_quota down to zero |
| Effects.ReconcileMoves | controller/billing_reconcile.go:138-215 | charged takes exactly the estimated cost and may bring the owner's referrer the reward, the other results move nothing |
| Effects.SignUpMoves | controller/oauth.go:458-500 | one new row holding exactly the signup bonus, nobody else touched |
| Movements.WorkRows | controller/topup_admin.go:486-649 | a two-phase handler that commits leaves every user row exactly as computed from the current order, subscription or entry: webhook and manual credits add the locked amount, refunds take the share, subscription refunds return the amount, charged reconciliations debit and reward, all others touch no row |
| Movements.BuyRows | controller/subscription_purchase.go:240-360 | a purchase debits the buyer the coupon price plus list prices, uses up the buyer's paid part, and rewards at most one referrer; no other row changes |
| Movements.ActionRows | proxy/text_billing.go:703-790 | a one-transaction handler that commits leaves every user row as expected: purchases, API turns and referral bonuses move exactly their amounts, all others no money |
| Movements.EveryMovement | controller/tx_helpers.go:43-62 | from every reachable state, whatever step comes next and however stale its copy, the whole user table afterwards is the expected one |
| Runs.TransactKeeps | controller/tx_helpers.go:43-62 | every two-phase handler keeps the invariant and undoes nothing although its copy may be stale |
| Runs.PerformKeeps | controller/tx_helpers.go:43-62 | so does every one-transaction handler |
| Runs.Reachable | controller/payment_webhook.go:88-143 | every reachable state satisfies the invariant, however handlers interleave, with or without the ledger index |
| Runs.RunEvolves | controller/topup_admin.go:570-577 | between any two states of a run nothing frozen, final or append-only changes |
| Theorems.RunningBalance | controller/billing.go:399-427 | in every reachable state entries record the running sum, the last one is the quota, pending ones moved nothing |
| Theorems.SummaryNetIsQuota | controller/billing.go:399-427 | the settled summary's net change, in minus out, is the quota; its rows are the totals and counts by type |
| Accounts.LedgerMatchesTables | controller/billing.go:399-427 | in every reachable state a user's ledger totals are the credited orders, the reclaiming refund rows, the unit prices of the subscriptions and the charged reconciliations; grants, revocations and unbilled usage total zero |
| Accounts.StatementOfAccount | controller/billing.go:399-427 | so every quota can be recomputed from those tables and the bonuses, subscription refunds, other adjustments and consumption in the ledger |
| Theorems.CreditedOnce | controller/payment_webhook.go:88-143 | over any run an order is credited at most once, with its locked amount, and never waits again |
| Theorems.AdmittedMatches | controller/payment_webhook.go:203-220 | a callback about to credit is a paid one from the order's provider for exactly the order's amount |
| Theorems.NonceConsumed | controller/topup_webhook.go:274-300 | a callback whose nonce was seen before changes nothing |
| Theorems.ManualReferenceOnce | controller/topup_admin.go:244-283 | over every run, the reference of a committed manual payment is refused for every order from then on |
| Theorems.RefundsTelescope | controller/topup_admin.go:486-577 | refund rows add up to the refunded fen and the prorated micro-USD, a fully refunded order returned exactly its amount, references are unique, with the index one row per order |
| Theorems.PaidQuotaBound | controller/topup_admin.go:585-598 | 0 <= paid_quota <= credited minus refunded, in every reachable state |
| Theorems.OverdraftBound | controller/topup_admin.go:591-593 | a quota is below zero only by what refunds reclaimed |
| Theorems.SubRefundsBounded | controller/subscription_admin.go:93-210 | at most one refund per subscription, in (0, price], none for granted ones; per user refunds never exceed purchases |
| Theorems.Lifecycle | controller/subscription_admin.go:356-386 | refunded and revoked are final, canceled_at is set exactly in the ended states and never rewritten |
| Theorems.StackIndexes | controller/subscription_snapshot.go:144-153 | stack indexes count 1, 2, 3, ... per user and package |
| Theorems.CouponsUsedOnce | controller/coupon.go:236-257 | a coupon leaves available once; used ones and one subscription point at each other and the saving balances |
| Theorems.ReconciledOnce | controller/billing_reconcile.go:166-215 | entries never change, one reconciliation each, charged ones match one adjustment, the adjustments linked to entries add up to what was charged |
| Theorems.RepeatReconcileIgnored | controller/billing_reconcile.go:196-205 | a repeat attempt leaves the whole database as it is |
| Theorems.ResetLinkedOnce | controller/subscription_admin_reset.go:117-131 | at most one reset entry carries a subscription's id |
| OrderLifecycle.PaidLostOnlyByGatewayError | controller/topup.go:199-203 | from any state a step takes a decided order out of paid and refunded if and only if it is the write after a gateway error, and never puts one there |
| OrderLifecycle.PaidUnlessGatewayError | controller/topup.go:199-232 | over every run a paid order stays paid or refunded if and only if no later step is that write |
| Theorems.PaidOrderCanFail | controller/topup.go:199-203 | after that write the order keeps its one credit and cannot be refunded |
| TopupDecisions.OrderCreated | controller/topup.go:138-178 | an order is created exactly for an existing user and an amount that converts, rounded down, to a positive int64; every field is as requested |
| TopupDecisions.SweepExactly | proxy/subscription_cron.go:98-133 | exactly the waiting orders created before now minus the limit (30 minutes if none or less than 5 is set) become canceled |
| TopupDecisions.AdmittedPaysExactly | controller/payment_webhook.go:203-220 | in every run a callback about to credit is a paid one of the order's provider for exactly the order's fen or exactly its micro-USD |
| TopupDecisions.LookupExactly | controller/payment_webhook.go:111-134 | in any state the order read passes a callback on if and only if it is such a one, and then with the current row |
| TopupDecisions.ReceiptExactly | controller/payment_webhook.go:89-103 | a seen nonce changes nothing, a fresh one is stored, and only a paid event goes on |
| TopupDecisions.CreditExactly | controller/payment_webhook.go:227-287 | the credit commits exactly on a waiting order, stamps it paid with at most 128 characters of the trade number and changes nothing but order, owner and ledger |
| TopupDecisions.CallbackCredits | controller/payment_webhook.go:47-143 | from every reachable state an undisturbed callback credits its order if and only if the nonce is new, it pays exactly and the order waits; otherwise only the receipt is stored |
| TopupDecisions.ManualPaymentExactly | controller/topup_admin.go:231-330 | which refusal a manual payment gets in every case, and the rows it leaves otherwise |
| TopupDecisions.RefundRefused | controller/topup_admin.go:486-577 | which refusal a refund gets in every case: used reference, reclaim while the owner holds an unrefunded subscription that was not granted, amount outside what is left, order not paid, ledger index; otherwise it commits |
| TopupDecisions.RefundRecorded | controller/topup_admin.go:548-646 | the order and refund row a refund leaves, refunded exactly when everything is |
| TopupDecisions.NoReclaimWhileSubscribed | controller/topup_admin.go:504-520 | over every run a reclaiming refund changes nothing while the order's owner holds a paid subscription |
| TopupDecisions.BeginsExactly | controller/topup_admin.go:219-221 | on which current rows a manual payment and a refund are begun |
| RewardDecisions.RewardExactly | database/referral_reward.go:87-198 | a reward transaction leaves the whole user table as the reference has it: paid credit is used last, the referrer in time gains the basis points of what was used, rounded down |
| RewardDecisions.AmountExactly | database/referral_reward.go:30-62 | the reward r has 10000 * r <= used * bps < 10000 * (r + 1) if somebody else referred in time, and is 0 otherwise |
| RewardDecisions.TurnSpends | proxy/text_billing.go:690-800 | over every run a covered API turn is a spend of exactly its cost with that reward, an uncovered one leaves a pending entry |
| RewardDecisions.ReconcileSpends | controller/billing_reconcile.go:138-215 | over every run a charged reconciliation is a spend of exactly the estimated cost, at the entry's time, with that reward |
| RewardDecisions.WelcomeCoupon | controller/oauth.go:458-500 | registration hands out one coupon with the template's terms exactly if there is an enabled template |
| RewardDecisions.ReferralEligible | controller/oauth.go:545-558 | bonuses are refused exactly for missing users or a self-referral |
| PurchaseDecisions.PurchaseExactly | controller/subscription_purchase.go:165-360 | over every run a purchase commits exactly when it may; then the first unit costs the coupon's fixed price if that is at most the list price, else the list price, the others the list price, the coupon records the difference, the buyer spends the sum with the reward of the reference, and every new row is as specified |
| PurchaseDecisions.AcceptedExactly | controller/coupon.go:204-257 | exactly which coupons are accepted: owner, availability, expiry, packages, positive fixed price, lower bound |
| PurchaseDecisions.CountsRunning | controller/subscription_purchase.go:200-232 | the stack limit counts exactly the active, unexpired subscriptions of the user and package |
| PurchaseDecisions.MaxExactly | controller/subscription_snapshot.go:144-153 | in any table the index looked up is the highest of the user and package, none exactly without such a row |
| PurchaseDecisions.GrantExactly | controller/subscription_grant.go:228-388 | over every run a grant admitted on a stale package copy commits exactly when it still may, and adds free rows with fresh price and plans for the given seconds or the copy's period |
| PurchaseDecisions.WithdrawExactly | controller/coupon.go:758-830 | a coupon is withdrawn exactly while available and not expired |
| PurchaseDecisions.BatchExactly | controller/coupon.go:596-660 | every coupon of a batch carries the template's terms and nothing else changes |
| PurchaseDecisions.CancelExactly | controller/subscription.go:137-200 | exactly an active subscription is canceled, stamped now |
| PurchaseDecisions.StatusWritesExactly | proxy/subscription_cron.go:282-312 | the cron expires exactly active subscriptions; pausing and resuming take the two other steps |
| PurchaseDecisions.SubRefundExactly | controller/subscription_admin.go:144-210 | a subscription refund commits exactly while active, canceled, expired or paused, and keeps an earlier cancellation time |
| PurchaseDecisions.RevokeExactly | controller/subscription_admin.go:351-386 | a revocation commits exactly for a granted active or paused subscription, with the refusal for every other case |
| PurchaseDecisions.BeginsExactly | controller/subscription_admin.go:93-130 | on which current rows a cancellation, refund, revocation or grant is begun |
| ChargeDecisions.EntryExactly | database/billing_helper.go:58-108 | which entries the ledger writer refuses and why; any other is appended |
| ChargeDecisions.PendingExactly | proxy/text_billing.go:690-760 | the pending entry another writer leaves |
| ChargeDecisions.TurnRecorded | proxy/text_billing.go:690-800 | a turn is recorded for every existing user unless the ledger index already has its entries; the charge entry is as specified |
| ChargeDecisions.ReconcileExactly | controller/billing_reconcile.go:124-224 | over every run a reconciliation commits exactly on an unsettled, unreconciled entry with, if charged, a positive cost within cap and quota; its rows are as specified |
| ChargeDecisions.BeginsExactly | controller/billing_reconcile.go:100-124 | it is begun exactly on the current row of an unsettled entry |
| ResetDecisions.ResetExactly | controller/subscription_admin_reset.go:66-201 | over every run a requested reset commits exactly up to 10000 matches, zeroes exactly the counters of the plans in matched snapshots, keeps windows, and writes one audit entry per match, linked only the first time |
| ResetDecisions.ScopeExactly | controller/subscription_admin_reset.go:241-302 | exactly which subscriptions a request with lists of ids and statuses matches |
| Summary.GroupedExactly | controller/billing.go:399-405 | grouping gives one row per type with its exact settled total and count |
| Ids.Normalize | controller/subscription_admin_reset.go:241-255 | the loop with a seen set keeps each non-zero id once, in order |
| Ids.NormalizedExactly | controller/coupon.go:596-605 | nothing named is lost, invented or repeated |
| Ids.NothingNamed | controller/subscription_admin_reset.go:241-255 | a normalised list is empty exactly when it holds no id but 0 |
| Ids.AscendingExactly | controller/coupon.go:606-606 | the lock order is an ascending permutation |
| Service.MoneyService.WriteBillingEntry | database/billing_helper.go:58-108 | validates and appends exactly as specified |
| Service.MoneyService.ProcessPaymentWebhook | controller/payment_webhook.go:47-143 | the three phases run without interference give exactly receipt, admission and credit |
| Service.MoneyService.FinalizePaidTopup | controller/payment_webhook.go:227-287 | commits or rolls back exactly as specified |
| Service.MoneyService.CreateTopup | controller/topup.go:126-232 | creation and the later failure or reply write |
| Service.MoneyService.ExpireStaleTopupOrders | proxy/subscription_cron.go:98-133 | the sweep cancels exactly the waiting orders older than the limit |
| Service.MoneyService.AdminMarkTopupPaid | controller/topup_admin.go:231-330 | commits or rolls back exactly as specified |
| Service.MoneyService.AdminRefundTopup | controller/topup_admin.go:486-649 | commits or rolls back exactly as specified |
| Service.MoneyService.ApplySpendReward | database/referral_reward.go:87-198 | does exactly the specified reward |
| Service.MoneyService.LockAndApplyCoupon | controller/coupon.go:204-257 | refuses or marks the coupon used, in the source's order of checks |
| Service.MoneyService.WriteUnitEntries | controller/subscription_purchase.go:294-334 | debiting the total first and rolling the balances gives the same ledger as debiting unit by unit |
| Service.MoneyService.PurchaseAsInstant | controller/subscription_purchase.go:165-360 | commits or rolls back exactly as specified |
| Service.MoneyService.ExecuteAdminGrant | controller/subscription_grant.go:228-388 | commits or rolls back exactly as specified |
| Service.MoneyService.AdminRefundSubscription | controller/subscription_admin.go:144-210 | commits or rolls back exactly as specified |
| Service.MoneyService.AdminRevokeGrantedSubscription | controller/subscription_admin.go:351-403 | commits or rolls back exactly as specified |
| Service.MoneyService.AdminReconcileBillingEntry | controller/billing_reconcile.go:124-224 | commits or rolls back exactly as specified |
| Service.MoneyService.AdminBulkGrantCoupon | controller/coupon.go:596-660 | the loops over users and coupons create the specified batch or nothing |
| Service.MoneyService.AdminResetSubscriptionUsage | controller/subscription_admin_reset.go:66-201 | grouping plans by user and updating per user clears exactly the specified counters |
| Service.MoneyService.BillingSummary | controller/billing.go:406-427 | money in is the sum of the positive totals, money out of the others, their difference the settled sum |
| RmbCodec.ParseRmbToFen | controller/topup_money.go:202-250 | accepts exactly the trimmed strings that denote an amount within int64, and returns it |
| RmbCodec.DenotesUnique | controller/topup_money.go:196-201 | a string denotes at most one amount |
| RmbCodec.PrintedDenotes | database/money.go:113-128 | a printed amount denotes that amount and no other if it is not negative, and nothing otherwise |
| RmbCodec.RoundTrip | controller/topup_money.go:202-250 | the parser inverts the printer on every non-negative int64 and refuses the printed negative ones |
| TmpToken.PayloadParts | controller/oauth.go:200-218 | a payload splits into its eight sanitised parts |
| TmpToken.PartsCount | controller/oauth.go:200-218 | into exactly eight if and only if the unsanitised type has no bar |
| TmpToken.TokenRoundTrip | controller/oauth.go:142-192 | parsing returns the type and every field with only the bars removed, or expired, or from the future |
| TmpToken.PayloadInjective | controller/oauth.go:200-218 | on bar-free fields different inputs make different payloads |
| TmpToken.SanitizeBarFree | controller/oauth.go:218-218 | sanitising is the identity exactly on bar-free text |
| TmpToken.ParseExactly | controller/oauth.go:142-192 | what parsing makes of any text, by its parts: refusals in order, email and flag from eight parts on |
| TmpToken.IntExactly | controller/oauth.go:158-164 | a timestamp is an optional sign and digits within int64 |
| TmpToken.PrintedPlainly | controller/oauth.go:200-218 | a printed timestamp has a sign exactly if negative and no leading zero |
| Attribution.QueryExactly | controller/cliproxy_usage_sync.go:602-627 | the query returns candidates only, newest first, at most fifty |
| Attribution.QueryComplete | controller/cliproxy_usage_sync.go:624-626 | no candidate is missed exactly while at most fifty pass the filters |
| Attribution.Choose | controller/cliproxy_usage_sync.go:543-567 | the scan finds the nearest exact candidate, first on ties, or the only one without token facts |
| Attribution.NearestOverall | controller/cliproxy_usage_sync.go:545-553 | up to fifty candidates the choice is nearest among all of them |
| Attribution.UsageStore.Settle | controller/cliproxy_usage_sync.go:569-600 | with a possibly stale list, log and record stay a partial injection; matched exactly if the choice is still free |
| Attribution.UsageStore.MatchRecord | controller/cliproxy_usage_sync.go:380-405 | one record ends ignored, unmatched or matched to the chosen candidate |
| Attribution.UsageStore.StoreBatch | controller/cliproxy_usage_sync.go:348-371 | the batch, or its storable rows, are stored in order; fetched is stored plus dropped |
| Attribution.UsageStore.StoreAndMatch | controller/cliproxy_usage_sync.go:342-413 | over any sync the injection is kept, exactly the storable rows are stored, each ends ignored by key, unmatched or with the chosen log of its query at its own clock reading, or as it was if its transaction failed; the counters add up |
| UsageRuns.StepKeeps | controller/cliproxy_usage_sync.go:376-413 | whatever step of whichever sync comes next, the partial injection is kept and nothing decided is undone |
| UsageRuns.ArrivalsExactly | controller/cliproxy_usage_sync.go:342-371 | logs and stored rows are appended, rows waiting; a rolled back transaction writes nothing |
| UsageRuns.InjectionInEveryRun | controller/cliproxy_usage_sync.go:569-600 | over every interleaving of syncs, logs and matched records are a partial injection; logs, attributions and decided records never change |
| UsageRuns.AsManyAsMatched | controller/cliproxy_usage_sync.go:569-600 | over every interleaving there are as many attributions as matched records |
| UsageRuns.OutcomesExplained | controller/cliproxy_usage_sync.go:376-413 | over every interleaving each decided record goes back to one read: ignored exactly by the keys known then, matched with the log chosen by that query, unmatched exactly if it chose nothing or its log went to another record |
| MatchDecisions.AttributedAgree | controller/cliproxy_usage_sync.go:640-668 | over every interleaving a log and its record agree on each positive count, field by field, and the log was eligible when read |
| MatchDecisions.MatchExactly | controller/cliproxy_usage_sync.go:376-600 | with at most fifty open logs: ignored exactly by the keys; with counts the nearest agreeing open log, unmatched exactly if none agrees; without counts the single open log |
| MatchDecisions.PassesExactly | controller/cliproxy_usage_sync.go:602-660 | exactly which logs are eligible: unassigned, in the window, by name, endpoint and outcome |
| MatchDecisions.PathOfTwoWords | controller/cliproxy_usage_sync.go:683-692 | an endpoint of two words names the second as path |
| MatchDecisions.PathOfOneWord | controller/cliproxy_usage_sync.go:683-692 | one of a single word is the path exactly if it starts with a slash |
| MatchDecisions.TrimExactly | controller/topup_money.go:202-210 | trimming takes white space off both ends and nothing else |
| BillingRules.WinnerIsLatest | proxy/billing_rules.go:214-225 | the cron selects the latest due revision that is not cancelled |
| BillingRules.SubmitExactly | controller/billing_rules.go:360-409 | what each submission adds, cancels and activates, field by field |
| BillingRules.CancelExactly | controller/billing_rules.go:230-257 | exactly the revisions not yet in effect can be cancelled |
| BillingRules.HalvesExactly | controller/billing_rules.go:230-257 | what the read and the write of divided submissions, cancellations and cron runs do |
| BillingRules.CronExactly | proxy/billing_rules.go:204-285 | the cron activates the uncancelled revision that took effect last, by time and then id, and changes nothing else |
| BillingRules.ActiveIsEffective | controller/billing_rules.go:360-409 | in every run the active revision is already effective |
| BillingRules.CancelledOnlyByStaleWrite | controller/billing_rules.go:230-257 | the active revision becomes cancelled exactly by a stale cancellation write |
| BillingRules.UncancelledUnlessStale | controller/billing_rules.go:230-257 | over every run the active revision is never cancelled if and only if no such write occurs |
| BillingRules.StaleCancelHappens | controller/billing_rules.go:230-257 | a run that does so |
| BillingRules.OlderReplacesOnlyByStaleCron | proxy/billing_rules.go:237-285 | after a publication that left nothing behind an older revision becomes active exactly by a stale cron write |
| BillingRules.StaleCronReplaces | proxy/billing_rules.go:204-285 | which is possible from every state with a due revision |
| BillingRules.GoesBackExactly | proxy/billing_rules.go:204-285 | a step takes the active revision back behind a publication exactly when it is a stale cron write or a cron run whose due leftover comes after everything due since |
| BillingRules.PublishedStays | controller/billing_rules.go:368-409 | over every run, including publications whose auto-cancel failed in part, nothing older than an immediate publication is active again at any time if and only if no step is one of those |
| BillingRules.CompleteStaysUnlessStale | controller/billing_rules.go:368-409 | while publications leave nothing behind, if and only if no stale cron write goes back |
| BillingRules.LeftoverReturns | controller/billing_rules.go:378-396 | a publication that left a later revision uncancelled is replaced once that is due and the cron runs |
| BillingRules.UndividedIsSafe | controller/billing_rules.go:360-409 | with every read directly followed by its write, a publication stays whatever follows if and only if it left nothing behind |
| BillingRules.UndividedUncancelled | controller/billing_rules.go:230-257 | and the active revision is never a cancelled one |
| BillingRules.RuleStore.PersistUpdate | controller/billing_rules.go:360-409 | the loop cancels exactly the revisions that would take effect later, except those whose insert fails or all if the scan fails, and activates the new one |
| BillingRules.RuleStore.ActivateDue | proxy/billing_rules.go:204-285 | the scan activates the specified winner |

## Left out

- HTTP, JSON, message codes, logs, audit rows, notifications, caches: no effect on the modelled state.
- Signature checks, encryption, IP allowlists, CSRF: a verified webhook event and a decrypted token are inputs.
- Checks repeated outside the purchase and grant transactions (controller/subscription_purchase.go:83-163): they only refuse earlier.
- Database failures other than constraint violations: a transaction that fails rolls back, which the model allows by not running it. The auto-cancel of an immediate publication, whose failures are only logged (controller/billing_rules.go:378-396), is modelled.
- Aliasing and update in place of single rows: a table is a sequence that methods reassign.
- int64 wrap-around of quotas and of `time.Duration` for very long periods or latencies.
- Offline top-up (controller/user.go:439), single and bulk admin quota adjustment (controller/user.go:606, 965), user purge and soft deletion, image and media billing, subscription consumption.
- Theorems.RunningBalance: the entry written when a subscription pays for a turn records the request's cached quota (proxy/text_billing.go:615-620). That writer is not modelled; its amount is zero, but the balance it records need not be the running sum and lies outside this theorem.
- Accounts.StatementOfAccount: quantifies over the modelled writers, so the offline top-ups and quota adjustments named above are not among its terms.
- The attribution's matched_at, a clock reading later than the query's, takes part in nothing.
- The single-user coupon grant (controller/coupon.go:387-500) locks in another order and reports failures in that order; its committed effect is that of a batch of one.
- Random coupon codes, consumption order, grant reasons and other fields no property reads.
- Parsing of status names in a usage reset and of RFC 3339 times: the parsed values are inputs.
- `convertCPAUsageRecord` trimming and header filtering (controller/cliproxy_usage_sync.go:444-524): records enter as stored.
- `billingRuleRevisionToResponse` and rule-set validation: display and local checks.
- Deadlock freedom and delivery liveness: not given by the code.
