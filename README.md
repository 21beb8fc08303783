# Shared-expense engine: balances and settlement suggestions

This project models the two computations of the shared-expense ledger. They run one
after the other for each group.

- The **balance calculator** (`compute_group_balances`) walks a group's expenses in
  creation order. It splits each expense among its shares in one of three ways:
  - equally;
  - by weight;
  - by the equal fallback, when every weight is missing or non-positive.

  The payer absorbs the rounding remainder. Each charged member is debited their
  charge and the payer is credited the whole amount. The result maps member id to
  net balance: positive is owed money, negative owes money.
- The **settlement suggester** (`suggest_settlements`) splits the balances into
  creditors and debtors at plus or minus half a cent. It sorts each list by amount,
  largest first. It then walks both lists with two cursors, moving the smaller of
  the two remaining amounts from the current debtor to the current creditor.

`app1.py:101-171` holds an older copy of both functions. Apart from how the inputs
are read, it is line for line the same as `app/services/balance_service.py:7-49` and
`app/services/settlement_service.py:6-33`. One model serves both files, and the
table below cites whichever copy a row's lines read best in.

Modelling choices:

- **Money and rounding.**
  - Money is whole cents (`Money.Cents`).
  - Rounding a quotient to two decimals is `Money.DivRound`: the nearest whole
    cent, with halves rounded up.
  - Rounding an amount that is already in whole cents leaves it unchanged. This
    covers the rounding of `allocated`, of `remainder`, of each transfer, and of
    every balance at the end.
  - The half-cent tolerance is `2 * c > 1` and `2 * c < -1`. In cents a balance
    inside the band is therefore exactly 0.
  - So the settlement step, which in floating point settles balances to within
    the half-cent band, settles them exactly in cents: for balances that sum to 0,
    the suggested transfers bring every balance to exactly 0 (`SuggestedSettles`).
- **Share weights** are integers in ten-thousandths. The expense form stores every
  share rounded to four decimals (`app/routes/expense.py:41`), so a weighted charge
  is `DivRound(amount * w, total_weight)`.
- **Python dicts** are `OrderedDict.Dict`: a sequence of keys in insertion order
  plus a map. Order matters because the creditors and debtors are listed in the
  balance dict's order, and the stable sort keeps that order among equal amounts.
- **Imperative code stays imperative.** The code that updates variables in loops is
  written as methods with loops:
  - `WeightedAllocate`, `AllocateExpense`, `DebitCharges`, `ProcessExpense` and
    `ComputeGroupBalances` for the balance calculator;
  - `SuggestSettlements`, its loop `SettleSorted` and the cursor move `MoveCursor`
    for the suggester.

  Each method is proved equal to a specification function (`WeightedAlloc`,
  `Charges`, `DebitAll`, `ApplyExpense`, `Balances`, `Advance`, `Netting`,
  `Suggested`). The properties are then
  proved about those functions.

Places where the code and the intended behaviour part ways; the model follows
the code:

- **Zero-total-weight fallback.** The fallback is meant to split equally, which
  would include the equal split's remainder rule. The code applies no remainder
  correction (`app/services/balance_service.py:23-24`). `FallbackDriftExample` shows 10.00
  over three shares charged as 9.99.
- **Repeated participants in equal mode.** The remainder is computed from the
  number of shares, but the dict keeps one entry per id
  (`app/services/balance_service.py:34-39`). So with repeated ids equal mode falls
  short of the amount by one per-share charge for every repeat, which is nothing
  only when the participants are distinct or the per-share charge rounds to 0.
  `EqualModeTotal` gives the exact shortfall,
  and `EqualModeRepeatedIdExample` shows one case.
- **What the suggester then cannot settle.** Full settlement needs balances that
  sum to 0 (`SuggestedSettles` requires it). The balances sum to the expenses'
  total shortfall (`BalancesTotal`), so each of the two cases above leaves money
  that no transfer settles. The expense of `EqualModeRepeatedIdExample` leaves
  user 1 owed 10.00 and user 2 owing 5.00. The one transfer, 2 to 1 for 5.00,
  leaves user 1 still owed 5.00. `EndToEnd.RepeatedIdUnsettled` proves both the
  balances and the suggestion for this case.

## Model

| member | source | states |
|---|---|---|
| Money.DivRoundNearest | app/services/balance_service.py:34 | the two-decimal rounding of a quotient is within half a cent of the exact quotient (halves rounded up) |
| OrderedDict.Dict.Put | app/services/balance_service.py:28 | assigning at a key replaces its value; a new key is appended to the iteration order; validity is kept |
| OrderedDict.FromKeysContents | app/services/balance_service.py:12 | the dict comprehension holds exactly the listed keys, each at the given value |
| OrderedDict.FromKeysDistinct | app/services/balance_service.py:35 | over distinct keys the comprehension keeps their order and totals count × value |
| OrderedDict.FromKeysTotal | app1.py:129 | in general the comprehension totals (number of distinct keys) × value |
| OrderedDict.TotalPut | app/services/balance_service.py:43 | an assignment moves the dict's total by the new value minus the old one |
| BalanceService.EffectiveWeight | app/services/balance_service.py:21 | a present, positive weight counts at its own value, and a missing or non-positive one as 0 |
| BalanceService.AnyWeightIff | app/services/balance_service.py:20 | the weighted split is chosen if and only if some share has a non-null weight |
| BalanceService.TotalWeightZero | app/services/balance_service.py:21-23 | the total weight is never negative, and the fallback is taken exactly when every effective weight is 0 |
| BalanceService.RemainderToPayer | app/services/balance_service.py:31-32 | a non-zero remainder adds the payer's entry when it is missing; a zero remainder adds nothing |
| BalanceService.WeightedAllocate | app/services/balance_service.py:26-28 | the share-by-share assignment loop builds exactly `WeightedAlloc`, in which a later share of the same user overwrites an earlier one |
| BalanceService.AllocateExpense | app/services/balance_service.py:20-39 | the loop-built charges of an expense equal the three-mode specification `Charges` |
| BalanceService.DebitCharges | app/services/balance_service.py:41-43 | the debit loop over the charges, in dict order, equals `DebitAll`, whose effect `DebitAllPointwise` and `DebitAllTotal` state |
| BalanceService.ProcessExpense | app/services/balance_service.py:16-45 | one pass of the expense loop (skip, allocate, debit each charge, credit the payer) equals `ApplyExpense` |
| BalanceService.ComputeGroupBalances | app/services/balance_service.py:7-49 | the balances computed in place over all expenses equal the specification `Balances` |
| BalanceProperties.RemainderToPayerEffect | app1.py:132-133 | the remainder raises the payer's charge and the total by exactly the remainder and changes nobody else's |
| BalanceProperties.EqualModeCharges | app/services/balance_service.py:34-39 | equal mode charges each participant round(amount/n) and adds amount − per_share·n to the payer; the payer has an entry beyond the participants only for a non-zero remainder |
| BalanceProperties.EqualModeConserves | app1.py:128-133 | with distinct participants, equal mode charges exactly the amount |
| BalanceProperties.EqualSplitShortfall | app1.py:130-131 | an equal split whose remainder is computed from n shares totals the amount less one share per id lost to repeats |
| BalanceProperties.EqualModeTotal | app/services/balance_service.py:35-37 | equal mode charges the amount less (shares − distinct ids) × per_share |
| BalanceProperties.EqualModeExample | app/services/balance_service.py:34-35 | 30.00 split equally among three distinct users charges exactly 10.00 each |
| BalanceProperties.SingleExpenseBalance | app/services/balance_service.py:12-45 | from members at 0, one expense with shares leaves each id at what it paid less what it was charged |
| BalanceProperties.EqualModeBalancesExample | app/services/balance_service.py:12-45 | 30.00 paid by user 1 and split equally among users 1, 2 and 3 leaves balances +20.00, -10.00 and -10.00, the balances the settlement example starts from |
| BalanceProperties.EqualModeRepeatedIdExample | app/services/balance_service.py:35-36 | two shares naming the same user charge 5.00 of a 10.00 expense |
| BalanceProperties.WeightedAllocKeys | app/services/balance_service.py:26-27 | the weighted loop creates an entry for every participant and nobody else |
| BalanceProperties.WeightedAllocContents | app/services/balance_service.py:27-28 | each participant's entry is the weighted charge of that participant's last share (later shares overwrite) |
| BalanceProperties.WeightedModeCharges | app/services/balance_service.py:25-32 | positive-weight mode charges the last-share weighted amounts, the payer absorbs the remainder (a non-participant payer is charged exactly the remainder), and the charges total exactly the amount, even with repeated ids |
| BalanceProperties.WeightedModeExample | app1.py:119-126 | 10.00 with weights 1 and 2 charges 3.33 and 6.67 |
| BalanceProperties.FallbackModeCharges | app/services/balance_service.py:23-24 | the fallback charges exactly the participants round(amount/n) each, with no remainder correction |
| BalanceProperties.FallbackDriftExample | app1.py:117-118 | the fallback charges 9.99 for a 10.00 expense over three shares |
| BalanceProperties.ChargesKeys | app/services/balance_service.py:20-39 | in every mode each participant is charged, and nobody besides the participants and the payer |
| BalanceProperties.DebitAllPointwise | app/services/balance_service.py:41-43 | the debit loop over distinct keys lowers each listed id by its charge and adds the missing ids |
| BalanceProperties.DebitAllTotal | app1.py:135-137 | the debit loop lowers the total of the balances by the sum of the charges |
| BalanceProperties.DebitCreditPointwise | app/services/balance_service.py:41-45 | after debits and the payer's credit, each id has moved by the amount paid minus its charge |
| BalanceProperties.DebitCreditTotal | app1.py:135-139 | debits and the payer's credit move the total by the amount minus the charges |
| BalanceProperties.DebitCreditKeys | app/services/balance_service.py:42-44 | the ids present afterwards are those before plus the participants and the payer |
| BalanceProperties.ApplyExpenseEffect | app/services/balance_service.py:16-45 | one expense moves every id by amount paid minus charge, adds exactly its participants and payer, and an expense without shares changes nothing |
| BalanceProperties.ApplyExpenseTotal | app1.py:108-139 | one expense moves the total of the balances by its amount minus its charges |
| BalanceProperties.NoExpenses | app/services/balance_service.py:12 | with no expenses exactly the members are present, each at 0, totalling 0 |
| BalanceProperties.SkipsExpenseWithoutShares | app1.py:110-111 | appending an expense without shares leaves the balances unchanged |
| BalanceProperties.BalancesKeys | app/services/balance_service.py:12-45 | the result has exactly the members plus every participant and payer of an expense with shares |
| BalanceProperties.BalancesTotal | app/services/balance_service.py:15-45 | the balances always sum to the total shortfall of the expenses' charges |
| BalanceProperties.ConservingModes | app1.py:120-133 | equal mode with distinct participants and positive-weight mode charge exactly the amount |
| BalanceProperties.ZeroSum | app/services/balance_service.py:7-49 | when every expense's charges add up to its amount, the balances sum to exactly 0 |
| SettlementService.MoveCursor | app/services/settlement_service.py:19-28 | a cursor moves past its party exactly when no more than half a cent is left and the list is then unchanged; otherwise entry `i` alone is overwritten with the rest; either way the list from the cursor on becomes `Advance` of the old one |
| SettlementService.SettleSorted | app/services/settlement_service.py:11-28 | the two-cursor loop that overwrites list entries in place emits exactly the specification `Netting` |
| SettlementService.SuggestSettlements | app/services/settlement_service.py:6-33 | partition, sort and the loop produce exactly the specification `Suggested(nets)` |
| EndToEnd.RepeatedIdCharges | app/services/balance_service.py:34-39 | 10.00 split equally over two shares naming user 2 charges one entry, 5.00 for user 2, and nothing to the payer |
| EndToEnd.RepeatedIdBalances | app/services/balance_service.py:12-45 | with members 1 and 2, that expense leaves balances exactly {1: +10.00, 2: −5.00}, in that key order |
| EndToEnd.RepeatedIdSuggested | app/services/settlement_service.py:6-28 | for balances {1: +10.00, 2: −5.00} the only suggested transfer is 5.00 from 2 to 1 |
| EndToEnd.RepeatedIdUnsettled | app1.py:101-171 | calculator then suggester on that expense: balances {1: +10.00, 2: −5.00} and the single transfer 2→1 5.00, which leaves user 1 owed 5.00 |
| SettlementProperties.CreditorsIff | app/services/settlement_service.py:7 | a party is a creditor if and only if its id is a key whose balance exceeds half a cent, with that balance |
| SettlementProperties.DebtorsIff | app/services/settlement_service.py:8 | a party is a debtor if and only if its id is a key whose balance is below minus half a cent, with the balance negated |
| SettlementProperties.OwedCreditors | app1.py:146 | over distinct keys a creditor is listed for its balance, and anybody else for 0 |
| SettlementProperties.OwedDebtors | app1.py:147 | over distinct keys a debtor is listed for its negated balance, and anybody else for 0 |
| SettlementProperties.SumOverSplit | app/services/settlement_service.py:7-8 | the sum of the balances is total credit minus total debt, since in-band balances are 0 in cents |
| SettlementProperties.SortPermutes | app/services/settlement_service.py:9-10 | the sort is a permutation of its input |
| SettlementProperties.SortSorted | app1.py:148-149 | the sort orders by amount, largest first |
| SettlementProperties.SortStable | app/services/settlement_service.py:9 | the sort is stable: parties of the same amount keep their order |
| SettlementProperties.SortOwed | app/services/settlement_service.py:10 | sorting changes neither what anybody is listed for nor the total |
| SettlementProperties.AdvanceAccounting | app/services/settlement_service.py:19-28 | after the head gives or receives a transfer, what the list holds for the head's id and its total drop by exactly the transfer, positive amounts stay positive, and no id is added |
| SettlementProperties.NettingEndpoints | app/services/settlement_service.py:14-18 | every transfer is positive and runs from a listed debtor to a listed creditor |
| SettlementProperties.NettingCount | app/services/settlement_service.py:13-28 | no transfer when a list is empty, and otherwise at most debtors + creditors − 1 |
| SettlementProperties.NettingNonEmpty | app/services/settlement_service.py:13-18 | with positive amounts there is a transfer if and only if both lists are non-empty |
| SettlementProperties.NettingAccounting | app/services/settlement_service.py:15-28 | nobody pays more than listed as owing or receives more than listed as owed; with equal totals everybody pays and receives exactly that |
| SettlementProperties.SuggestedEndpoints | app1.py:152-157 | every suggested transfer is positive and runs from a key below minus half a cent to a key above half a cent; in-band balances never take part |
| SettlementProperties.SuggestedCount | app1.py:152-167 | no transfers for an empty mapping or without creditors or debtors, and otherwise between 1 and debtors + creditors − 1 |
| SettlementProperties.SuggestedNeverOverpays | app/services/settlement_service.py:16-28 | nobody pays or receives a negative total, a debtor pays at most its debt and a creditor receives at most its credit; anybody else neither pays nor receives |
| SettlementProperties.SuggestedSettles | app/services/settlement_service.py:13-28 | when the balances sum to 0, applying the transfers brings every balance to exactly 0 |
| SettlementProperties.SuggestedExample | app/services/settlement_service.py:6-28 | balances {1: +20.00, 2: −10.00, 3: −10.00} settle as 2→1 10.00 then 3→1 10.00 |

## Left out

- The database queries that read the members and the expenses with their shares
  (`app/services/balance_service.py:8-16`). The members and the expenses, already
  in creation order, are parameters.
- HTTP routes, templates, the OAuth login, invite tokens and the database tables.
  These are web and persistence glue around the engine.
- The display-name lookup of each settlement
  (`app/services/settlement_service.py:29-32`). It is a database call, and an
  unknown id is the caller's error.
- IEEE-754 floating point, and Python's round-half-to-even on binary fractions.
  Amounts are exact cents, and `DivRound` rounds halves up. The weighted charge is
  computed as `amount * w / total` rather than as the float `amount * (w / total)`.
- The final rounding loop (`app/services/balance_service.py:47-48`) is not a
  separate step, because rounding whole cents is the identity. The same goes for
  the rounding of `allocated`, of `remainder`, and of each transfer amount.
- Share weights with more than four decimals. The expense form rounds them to four
  decimals before storing, and the model uses ten-thousandths.
- That the input balance mapping is not modified holds by construction: it is a
  value. No separate lemma states it.
