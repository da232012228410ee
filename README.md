# Exchange ledger and balance synchronisation (BokslCashKeeper)

A Dafny model of the part of BokslCashKeeper, a personal multi-currency
bookkeeping application, that keeps account balances in step with the
currency-exchange ledger. The model also covers the renderer's code-table and
stock-list lookups.

- `ExchangeService` (main process) keeps two pieces of state in step: a table of
  exchange rows keyed by `exchangeSeq`, and per-account, per-currency balances.
  These balances live in the account service.
  - Saving a row moves three balances of its account: the sell amount out of
    the sell currency, the buy amount into the buy currency, and the fee out of
    KRW. The fee is in KRW whatever the two exchange currencies are.
  - Deleting a row applies the exact negation of those moves.
  - Editing a row reverses the stored row's moves, overwrites the row, then
    applies the form's moves.
- In `exchange_service.dfy` this state is the class `ExchangeLedger.ExchangeService`:
  `records: map<int, ExchangeEntity>`, `balance: map<(account, currency), real>`,
  and `nextSeq`, the next identifier the table hands out. Its methods follow the
  source's sequence of awaited writes. Each one states its new state in terms of
  pure functions: `NewRecord`, `UpdatedRecord`, `InsertPostings`,
  `DeletePostings`, and `Apply` (successive `updateAccountBalance` calls).
- The body of the account service's `updateAccountBalance` lies outside this
  model. The model assumes only that it adds the amount to the (account,
  currency) entry, a missing entry counting as 0 (`AccountBalance.Credit`).
- The balance invariant is `LedgerConsistent`: every balance equals its opening
  value plus the sum (`Total`) of the contributions (`Contribution`) of the rows
  currently stored. Save and delete always preserve it. Update preserves it
  when the form names the row's own account. When the form names another
  account, update preserves it exactly when the form's row contributes nothing
  to any balance, as when all its amounts are zero
  (`UpdateToOtherAccountConsistentIff`).
- Why update needs that condition: `updateExchange` keeps the stored row's
  account, because the spread of the stored row is never overwritten for
  `account`. Yet it applies the form's moves to the form's `accountSeq`.
  Unless the form's moves cancel out, the invariant then breaks.
  `UpdateToOtherAccountBreaksConsistency` gives one such case: the form buys a
  nonzero amount of a currency that is neither KRW nor the one sold.
- Editing still moves the balances exactly as delete-then-save would, for every
  form (`UpdateMatchesDeleteThenSaveOnBalances`). The two paths differ only in
  the table: the edited row keeps its old account, the saved row takes the
  form's.
- Each public operation runs in one transaction. In the model every failure
  (an unknown identifier) is detected before the first write. A failed call
  returns `Fail(NotFound(message))`, with the source's message, and leaves
  `records` and `balance` unchanged.
- `CodeMapper` and `StockMapper` (renderer) are pure lookups over a module-level
  list. Here that list is a parameter. `find` and `map` are `Lists.Find` and
  `Lists.MapSeq`.

Amounts are `real` (exact). Currencies are strings; only `KRW` is singled out,
because the members of the `Currency` enum are not part of this model.

## Model

| member | source | states |
|---|---|---|
| `ExchangeLedger.MapEntityToRes` | src/main/service/ExchangeService.ts:20-32 | kind is SELL exactly when the sell currency is KRW and BUY otherwise; identifier, account, currencies, amounts, fee and date are copied |
| `ExchangeLedger.NewRecord` | src/main/service/ExchangeService.ts:67-76 | the saved row carries the given identifier, the form's account, and the form's note, currencies, amounts, fee and date |
| `ExchangeLedger.UpdatedRecord` | src/main/service/ExchangeService.ts:94-103 | the edited row keeps the stored identifier and account and takes the form's note, currencies, amounts, fee and date; it equals the row saving the form under that identifier would create exactly when the form names the stored account |
| `ExchangeLedger.InsertPostings` | src/main/service/ExchangeService.ts:122-131 | three balance calls, all on the form's account: −sellAmount on the sell currency, +buyAmount on the buy currency, −fee on KRW |
| `ExchangeLedger.DeletePostings` | src/main/service/ExchangeService.ts:133-147 | three balance calls, all on the stored row's account: +sellAmount on the sell currency, −buyAmount on the buy currency, +fee on KRW |
| `ExchangeLedger.GetExchange` | src/main/service/ExchangeService.ts:34-40 | succeeds exactly when a row has the identifier, with that row as a response; otherwise fails with the "exchange information not found" message |
| `AccountBalance.Credit` | src/main/service/ExchangeService.ts:123-130 | one balance update: the (account, currency) entry moves by the amount, a missing entry counting as 0, and every other balance is unchanged |
| `ExchangeLedger.ExchangeService.UpdateAccountBalance` | src/main/service/ExchangeService.ts:123-130 | the balance map after one update is `Credit` of the one before |
| `ExchangeLedger.ExchangeService.UpdateBalanceForInsert` | src/main/service/ExchangeService.ts:122-131 | the balances after the three calls are the old ones with −sellAmount, +buyAmount and −fee (on KRW) applied in order, all on the form's account |
| `ExchangeLedger.ExchangeService.UpdateBalanceForDelete` | src/main/service/ExchangeService.ts:133-147 | the balances after the three calls are the old ones with +sellAmount, −buyAmount and +fee (on KRW) applied, all on the stored row's account |
| `ExchangeLedger.ExchangeService.SaveExchange` | src/main/service/ExchangeService.ts:64-83 | adds exactly one row, under a fresh identifier, carrying the form's account, note, currencies, amounts, fee and date; applies the form's moves; keeps the balance invariant |
| `ExchangeLedger.ExchangeService.UpdateExchange` | src/main/service/ExchangeService.ts:85-109 | unknown identifier: fails with "transaction information not found", state unchanged; otherwise keeps identifier and account, overwrites note, currencies, amounts, fee and date, leaves other rows alone, reverses the old moves and applies the form's; keeps the invariant when the form names the row's account, and otherwise keeps it exactly when the form's row contributes nothing to any balance |
| `ExchangeLedger.ExchangeService.DeleteExchange` | src/main/service/ExchangeService.ts:111-120 | unknown identifier: fails with "transaction information not found", state unchanged; otherwise removes exactly that row, reverses its stored moves and keeps the invariant |
| `AccountBalance.ApplyAt` | src/main/service/ExchangeService.ts:122-147 | successive balance updates move each balance by exactly the net amount of the updates on it, so deltas on coinciding currencies add up |
| `AccountBalance.ApplyFrame` | src/main/service/ExchangeService.ts:122-147 | successive balance updates add entries only for the keys they touch and leave every other entry as it was |
| `AccountBalance.NetNegated` | src/main/service/ExchangeService.ts:133-147 | negating every amount negates the net move on every balance |
| `AccountBalance.ApplyThenUndo` | src/main/service/ExchangeService.ts:122-147 | applying updates and then their negation restores every balance |
| `ExchangeLedger.InsertNetIsContribution` | src/main/service/ExchangeService.ts:122-131 | the net move of saving a form on each balance is the contribution of the row saved from it |
| `ExchangeLedger.DeleteNetIsNegatedContribution` | src/main/service/ExchangeService.ts:133-147 | the net move of deleting a row on each balance is minus that row's contribution |
| `ExchangeLedger.DeleteUndoesInsert` | src/main/service/ExchangeService.ts:122-147 | the delete calls for the row saved from a form are the insert calls for that form with each amount negated, in the same order |
| `ExchangeLedger.SaveChangesOnlyItsBalances` | src/main/service/ExchangeService.ts:122-131 | saving touches only (account, sell), (account, buy) and (account, KRW): each moves by the saved row's contribution, and every other entry is unchanged |
| `ExchangeLedger.SaveThenDeleteRestores` | src/main/service/ExchangeService.ts:64-120 | saving a form and then deleting the row it stored restores every balance |
| `ExchangeLedger.UpdateBalances` | src/main/service/ExchangeService.ts:91-107 | when the form keeps the account, editing moves each balance by minus the old row's contribution plus the edited row's |
| `ExchangeLedger.SavePreservesConsistency` | src/main/service/ExchangeService.ts:64-83 | saving under a fresh identifier preserves "balance = opening + sum of stored rows' contributions" |
| `ExchangeLedger.DeletePreservesConsistency` | src/main/service/ExchangeService.ts:111-120 | deleting a stored row preserves the balance invariant |
| `ExchangeLedger.UpdatePreservesConsistency` | src/main/service/ExchangeService.ts:85-109 | editing a row preserves the balance invariant when the form names the row's account |
| `ExchangeLedger.UpdateToOtherAccountBreaksConsistency` | src/main/service/ExchangeService.ts:94-107 | editing with a form that names another account (buying a non-KRW currency other than the one sold, a nonzero amount) breaks the balance invariant |
| `ExchangeLedger.UpdateGap` | src/main/service/ExchangeService.ts:85-109 | for any form, an edit leaves each balance off from what the stored rows account for by the form's row's contribution minus the edited row's |
| `ExchangeLedger.UpdateToOtherAccountConsistentIff` | src/main/service/ExchangeService.ts:94-107 | when the form names another account, editing keeps the balance invariant exactly when the form's row contributes nothing to any balance |
| `ExchangeLedger.UpdateMatchesDeleteThenSave` | src/main/service/ExchangeService.ts:85-120 | when the form keeps the account, editing in place leaves the same sum of contributions on every balance as deleting the row and saving the form anew |
| `ExchangeLedger.UpdateMatchesDeleteThenSaveOnBalances` | src/main/service/ExchangeService.ts:85-120 | for any form, editing a row on one service and deleting it then saving the form on an identical second service leave equal balances; the edited row keeps its old account while the saved row carries the form's |
| `ExchangeLedger.ExchangeScenario` | src/main/service/ExchangeService.ts:64-147 | selling KRW 10,000 for USD 8.55 with fee 5 gives KRW −10,005 and USD 8.55; editing it to KRW 20,000 for USD 17.10 gives −20,005 and 17.10; deleting it gives 0 and 0 |
| `Lists.Find` | src/renderer/mapper/CodeMapper.ts:18 | `find` is absent exactly when no element passes the test, and is otherwise the first element that does |
| `Lists.MapSeq` | src/renderer/mapper/CodeMapper.ts:48-53 | `map` gives one result per element, in the same order |
| `CodeMapper.GetCodeValue` | src/renderer/mapper/CodeMapper.ts:17-21 | absent when no main code has the kind; otherwise absent exactly when the first such code has no sub-code with the identifier, and else the name of the first sub-code that has it |
| `CodeMapper.GetCodeSubList` | src/renderer/mapper/CodeMapper.ts:23-29 | empty when no main code has the kind, otherwise equal to the first such code's sub-code list |
| `CodeMapper.GetCodeList` | src/renderer/mapper/CodeMapper.ts:31-33 | a value equal to the whole table; being a value, it shares nothing with the table |
| `CodeMapper.GetTransactionKindToCodeMapping` | src/renderer/mapper/CodeMapper.ts:34-45 | INCOME ↦ INCOME_ATTR, SPENDING ↦ SPENDING_ATTR, TRANSFER ↦ TRANSFER_ATTR, each in both directions; any other kind is an error carrying the "invalid transationKind" message |
| `CodeMapper.GetCodeSubOptionList` | src/renderer/mapper/CodeMapper.ts:47-54 | same length and order as `GetCodeSubList`, with value = `codeSeq` and label = `name` |
| `StockMapper.GetStock` | src/renderer/mapper/StockMapper.ts:22-28 | the first stock with the identifier; an error naming the identifier exactly when no stock has it |
| `StockMapper.GetStockList` | src/renderer/mapper/StockMapper.ts:30-32 | the current list itself |
| `StockMapper.GetStockOptionList` | src/renderer/mapper/StockMapper.ts:34-39 | one entry per stock, in list order, with value = `stockSeq` and label `name (currency)` |
| `StockMapper.GetStockOptionBalanceList` | src/renderer/mapper/StockMapper.ts:41-60 | one entry per stock, in list order, with value = `stockSeq`; the label's holding part is exactly `0주` when the account holds none or a non-positive quantity, and the formatted holding otherwise |

## Left out

- `findExchangeList`: it builds an SQL query through the ORM query builder, and its wildcard escaping is not part of this model.
- Date formatting with `moment`: `exchangeDate` is an opaque string, copied from the form.
- `AccountService.getAccount`: its body is not part of this model, so saving never fails on an unknown account. The model has no account-not-found path.
- `updateAccountBalance` beyond "add the delta to the entry": `Credit` is the whole of what the model assumes.
- Persistence failures and transaction isolation: the model's writes cannot fail, and operations are sequential. Atomicity appears only as "a failed call changes nothing".
- Identifier assignment: the table's auto-increment is the counter `nextSeq`.
- Order of the two writes in `deleteExchange` (remove the row, then reverse its moves): the two writes change disjoint fields (`records`, `balance`), so the reverse order reaches the same state. No separate member states this.
- Floating point: amounts are exact `real`s, so rounding of JavaScript numbers is not modelled.
- Validation of the exchange and trade forms (sell currency ≠ buy currency, non-zero quantity and price): no rule is imposed. Every theorem holds without it.
- Trade and cash-transaction balance effects: their services are not part of this model.
- `loadCodeMapping` and `loadStockList`: these IPC callbacks replace the module-level lists, which the model takes as parameters instead.
- The label text of a positive holding in `getStockOptionBalanceList`: share count, amount and average price go through `convertToComma`, `convertToCommaSymbol` and `StockBuyMapper`. None of these is part of this model, so the text is a parameter, `describe`, and holdings are a map standing for `StockBuyMapper.getAccount`.
- Aliasing and the unloaded code table: `getStockList` hands out the shared array while `getCodeList` hands out a deep copy, and before `loadCodeMapping` runs `globalCodeMapping` is undefined (src/renderer/mapper/CodeMapper.ts:6), so every code lookup throws. Lists here are values, so the two list getters cannot be told apart and the table is always some list.
- React components, the IPC handler and error-to-message wrapping: these are rendering and transport.
