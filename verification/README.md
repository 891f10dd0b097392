# Poker debt settlement — verified model

This project models `calculate_poker_transactions` from the home-poker-tools
debt setter. The routine takes each player's blinds at the start and at
the end of a session. It returns the list of transfers
`(debtor_index, creditor_index, amount)` that settles the table.

The routine works in four steps:

1. It asserts that both lists have the same length and the same sum.
2. It computes each player's net as `end - start`.
3. It lists the creditors (positive net) and the debtors (negative net,
   stored as a positive debt), both in player order.
4. It walks both lists with one cursor each. At each step the current
   debtor pays the current creditor `min(credit, debt)`. Both remaining
   amounts are written back, and every cursor whose entry reached exactly
   zero moves on.

The model has four modules:

- `Balances` (`balances.dfy`) covers the data:
  - the `Entry` rows of the creditor and debtor lists;
  - the `Transfer` record;
  - net balances and the creditor/debtor split;
  - the per-player bookkeeping sums: `Holding` (what a list records for a
    player), `Flow` (received minus paid over a list of transfers) and
    `Volume` (total moved).
- `Greedy` (`greedy.dfy`) covers the merge loop.
  - `Match` is a pure function over the remaining lists. The head of each
    list is the entry under its cursor, and `Pay` subtracts the step's
    amount from it and drops it once it is exactly zero.
  - The lemmas about `Match` hold the real proofs: length bound,
    positivity, which players take part, ordering, "every transfer closes
    out a party", volume and conservation.
- `DebtSetter` (`debt_setter.dfy`) covers the routine itself.
  - The `AssertionError` becomes a `Settlement.Rejected` value carrying
    `LengthMismatch` or `ImbalancedTotal`. The length check comes first,
    as in the source.
  - `Settle` is the routine as a value. `CalculatePokerTransactions` and
    `MergeCursors` are the routine as written, with the in-place list
    updates and the two cursors. They are proved to return exactly `Settle`.
  - The `Settle*` lemmas state the routine's guarantees in terms of the
    caller's two lists.
- `DebtSetterExamples` (`debt_setter_examples.dfy`) works through small
  concrete tables.

Quantities are Dafny `real`s, which are exact rationals. The source
compares with exact `==` in three places: the sum check and both
"reached zero" checks. Exact arithmetic gives those comparisons their
intended meaning. The code compares the two sums without any tolerance,
so the model has none either.

## Model

| member | source | states |
|---|---|---|
| Balances.Sum | poker_tools/debt_setter/views.py:24 | Definition only, with no contract of its own: Python's `sum` of a list. Its property is stated by Balances.NetBalancesSum. |
| Balances.NetBalances | poker_tools/debt_setter/views.py:26 | Definition only, with no contract of its own: `end - start` per player. Its properties are stated by Balances.NetBalancesSum and Balances.NetHolding. |
| Balances.Entries | poker_tools/debt_setter/views.py:27-28 | The list comprehension keeps at most one entry per value. Which entries it keeps is stated by Balances.EntriesSpec. |
| Balances.EntriesSpec | poker_tools/debt_setter/views.py:27-28 | The shared list-comprehension shape keeps exactly the indices whose value is positive, each paired with that value, in strictly ascending index order. |
| Balances.Creditors | poker_tools/debt_setter/views.py:27 | The creditor list holds exactly the players with positive net, in strictly ascending player order, each paired with its net, which is positive. |
| Balances.Debtors | poker_tools/debt_setter/views.py:28 | The debtor list holds exactly the players with negative net, in strictly ascending player order, each paired with the negated net, which is positive. |
| Balances.NetBalancesSum | poker_tools/debt_setter/views.py:24-26 | The nets add up to sum(end) - sum(start). So they sum to zero exactly when the routine's total check passes. |
| Balances.NetHolding | poker_tools/debt_setter/views.py:26-28 | For every player, the amount the creditor list records minus the amount the debtor list records is that player's net. Indices outside the table have 0. The split loses no balance. |
| Balances.NetTotals | poker_tools/debt_setter/views.py:26-28 | For every list of nets, the amounts in the creditor list minus the amounts in the debtor list add up to the sum of the nets. |
| Balances.PartitionSize | poker_tools/debt_setter/views.py:27-28 | The creditor and debtor lists together have at most as many entries as there are players. |
| Greedy.Min | poker_tools/debt_setter/views.py:35 | The step amount is at most the remaining credit and at most the remaining debt, and equals one of the two. |
| Greedy.Pay | poker_tools/debt_setter/views.py:38-44 | Definition only, with no contract of its own: pay the step amount off the entry under the cursor and drop it once it is exactly zero. DebtSetter.PayUnderCursor proves the in-place update computes it. |
| Greedy.Match | poker_tools/debt_setter/views.py:31-44 | Definition only, with no contract of its own: the greedy merge. Its properties are stated by the Greedy.Match* lemmas, and DebtSetter.MergeCursors is proved to compute it. |
| Greedy.MatchLength | poker_tools/debt_setter/views.py:32-44 | If either list is empty there are no transfers. Otherwise there is at least one, and at most (creditors + debtors - 1), because each step retires at least one entry. |
| Greedy.MatchAmounts | poker_tools/debt_setter/views.py:35-36 | When all remaining amounts are positive, every emitted amount is strictly positive. |
| Greedy.MatchParties | poker_tools/debt_setter/views.py:33-36 | Every payee is a player of the creditor list and every payer a player of the debtor list. |
| Greedy.MatchOrdered | poker_tools/debt_setter/views.py:31-44 | With both lists in ascending player order, payees and payers are non-decreasing along the transfer list. |
| Greedy.MatchClosesAParty | poker_tools/debt_setter/views.py:35-44 | After each transfer, either its payee is never paid again or its payer never pays again. The min zeroes one side and that cursor never comes back. |
| Greedy.MatchVolume | poker_tools/debt_setter/views.py:32-44 | With positive amounts, the merge moves exactly the smaller of total credit and total debt. |
| Greedy.MatchConserves | poker_tools/debt_setter/views.py:35-44 | With positive amounts and equal totals, each player receives minus pays exactly what the creditor list minus the debtor list recorded for them. |
| DebtSetter.Settle | poker_tools/debt_setter/views.py:23-24 | It rejects with LengthMismatch exactly when the lengths differ. It rejects with ImbalancedTotal exactly when the lengths agree and the sums differ. Otherwise it settles. |
| DebtSetter.CalculatePokerTransactions | poker_tools/debt_setter/views.py:4-45 | The imperative routine returns exactly the settlement of the value-level model, including which assertion fails. |
| DebtSetter.MergeCursors | poker_tools/debt_setter/views.py:30-45 | The two-cursor loop with in-place updates terminates and emits exactly the greedy merge of the creditor and debtor lists. |
| DebtSetter.PayUnderCursor | poker_tools/debt_setter/views.py:38-44 | Writing the reduced amount back keeps the list's length. The cursor moves on exactly when the entry reached zero. What is left from the cursor on is the old suffix with its head paid down, or dropped once it reaches zero. |
| DebtSetter.MergeConserves | poker_tools/debt_setter/views.py:26-44 | On nets that sum to zero, the merge gives every player received minus paid equal to their net, and 0 to indices outside the table. |
| DebtSetter.MergeEmptyIffAllZero | poker_tools/debt_setter/views.py:27-32 | On nets that sum to zero, the merge emits no transfer if and only if every net is zero. |
| DebtSetter.SettleConserves | poker_tools/debt_setter/views.py:24-44 | Conservation: for every player, total received minus total paid equals end - start. Indices beyond the table appear in no transfer's net effect. |
| DebtSetter.SettlePaysEverything | poker_tools/debt_setter/views.py:24-44 | Total credit equals total debt, and the transfers move exactly that total. No credit or debt is left unpaid when the loop ends. |
| DebtSetter.SettleTransfersWellFormed | poker_tools/debt_setter/views.py:27-36 | Every transfer has a strictly positive amount. Its payer is a player who ended below their start, and its payee a different player who ended above theirs. |
| DebtSetter.SettleSkipsEvenPlayers | poker_tools/debt_setter/views.py:27-28 | A player whose end equals their start is never payer or payee. |
| DebtSetter.SettleEmptyIffAllEven | poker_tools/debt_setter/views.py:27-32 | The transfer list is empty if and only if every player ended where they started. |
| DebtSetter.SettleCount | poker_tools/debt_setter/views.py:32-44 | A non-empty transfer list has at most creditors + debtors - 1 entries, and fewer entries than there are players. |
| DebtSetter.SettleOrdered | poker_tools/debt_setter/views.py:27-44 | Creditors are paid, and debtors pay, in ascending player order. |
| DebtSetter.SettleClosesAParty | poker_tools/debt_setter/views.py:35-44 | After each transfer, its payee is never paid again or its payer never pays again. |
| DebtSetterExamples.RejectionExamples | poker_tools/debt_setter/views.py:23-24 | [10,20] to [15,14] fails the total check. [10,20,30] against [15,45] fails the length check. |
| DebtSetterExamples.EvenTableExample | poker_tools/debt_setter/views.py:27-32 | [100,100] to [100,100] settles with no transfers. |
| DebtSetterExamples.TwoPlayerExample | poker_tools/debt_setter/views.py:26-44 | [100,200] to [150,150] settles with the single transfer (1, 0, 50). |
| DebtSetterExamples.ThreePlayerExample | poker_tools/debt_setter/views.py:26-44 | [100,150,200] to [90,160,200] settles with the single transfer (0, 1, 10). |
| DebtSetterExamples.FractionalExample | poker_tools/debt_setter/views.py:26-44 | [99.5,200.5] to [150,150] settles with the single transfer (1, 0, 50.5). |

## Left out

- The `index` view (poker_tools/debt_setter/views.py:47-78) is left out. It is Django request handling: comma-split `float` parsing, default `Player<i>` names, the name-count check, template rendering, and turning the `AssertionError` into a form error.
- The euro amount `round(amount * float(big_blind), 2)` (poker_tools/debt_setter/views.py:69) is left out. It is floating-point display formatting applied after the core returns.
- poker_tools/debt_setter/forms.py is left out. It only declares form fields and widgets.
- Floating-point semantics are left out. Quantities are exact rationals, so float rounding in `sum` and in the subtractions is not modelled. With floats the total check can fail on inputs whose exact totals agree. The converse also happens: start [1e16, 1.0] and end [1e16, 0.0] both sum to 1e16 in floats, so the source returns no transfers while player 1 still owes 1.0, where the model returns `Rejected(ImbalancedTotal)`. A rounding residue can also remain on one side when the other list runs out. None of this happens in the model.
- Python's own failure modes are left out: non-numeric elements, and `assert` being stripped under `python -O`. The model takes two lists of numbers and always performs both checks.
- The property "each amount is the minimum of the current remaining credit and debt" has no separate lemma. It is the definition of `Greedy.Match`, and `DebtSetter.MergeCursors` is proved equal to that definition. Its observable consequence is stated by `Greedy.MatchClosesAParty`.
