/**
 * The currency-exchange ledger of `ExchangeService` and the balances it keeps in step.
 *
 * Every saved exchange has moved its account's balances: the sell amount out
 * of the sell currency, the buy amount into the buy currency and the fee out
 * of KRW. Deleting or editing an exchange reverses the stored record's moves
 * first. `LedgerConsistent` states the resulting invariant: each balance is
 * its opening value plus the contributions of the records currently stored.
 */
module ExchangeLedger {
  import opened Wrappers
  import opened CommonType
  import opened AccountBalance

  /** The request an exchange is saved or edited from (`ExchangeForm`). */
  datatype ExchangeForm = ExchangeForm(
    exchangeSeq: int,
    accountSeq: AccountSeq,
    note: string,
    sellCurrency: Currency,
    sellAmount: real,
    buyCurrency: Currency,
    buyAmount: real,
    fee: real,
    exchangeDate: string)

  /** A stored exchange row (`ExchangeEntity`); the account relation is held by its `accountSeq`. */
  datatype ExchangeEntity = ExchangeEntity(
    exchangeSeq: int,
    account: AccountSeq,
    note: string,
    sellCurrency: Currency,
    sellAmount: real,
    buyCurrency: Currency,
    buyAmount: real,
    fee: real,
    exchangeDate: string)

  /** The exchange as reported to the renderer (`ResExchangeModel`); it carries no note. */
  datatype ResExchangeModel = ResExchangeModel(
    exchangeSeq: int,
    kind: ExchangeKind,
    sellCurrency: Currency,
    sellAmount: real,
    buyCurrency: Currency,
    buyAmount: real,
    fee: real,
    accountSeq: AccountSeq,
    exchangeDate: string)

  /** The errors the service throws, with their messages. */
  datatype ServiceError = NotFound(message: string)

  /** Thrown by `getExchange`: "exchange information not found". */
  const ExchangeInfoNotFound: string := "환전 정보를 찾을 수 없습니다."

  /** Thrown by `updateExchange` and `deleteExchange`: "transaction information not found". */
  const TradeInfoNotFound: string := "거래 정보를 찾을 수 없습니다."

  /** `mapEntityToRes`: selling KRW is a SELL, anything else a BUY; the other fields are copied. */
  function MapEntityToRes(e: ExchangeEntity): (r: ResExchangeModel)
    ensures r.kind == Sell <==> e.sellCurrency == KRW
    ensures r.kind == Buy <==> e.sellCurrency != KRW
    ensures r.exchangeSeq == e.exchangeSeq && r.accountSeq == e.account && r.exchangeDate == e.exchangeDate
    ensures r.sellCurrency == e.sellCurrency && r.sellAmount == e.sellAmount
    ensures r.buyCurrency == e.buyCurrency && r.buyAmount == e.buyAmount && r.fee == e.fee
  {
    ResExchangeModel(
      e.exchangeSeq,
      if e.sellCurrency == KRW then Sell else Buy,
      e.sellCurrency, e.sellAmount, e.buyCurrency, e.buyAmount, e.fee,
      e.account, e.exchangeDate)
  }

  /** The row `saveExchange` creates from a form, under the identifier the store assigns. */
  function NewRecord(exchangeSeq: int, f: ExchangeForm): (r: ExchangeEntity)
    ensures r.exchangeSeq == exchangeSeq && r.account == f.accountSeq && r.note == f.note
    ensures r.sellCurrency == f.sellCurrency && r.sellAmount == f.sellAmount
    ensures r.buyCurrency == f.buyCurrency && r.buyAmount == f.buyAmount
    ensures r.fee == f.fee && r.exchangeDate == f.exchangeDate
  {
    ExchangeEntity(exchangeSeq, f.accountSeq, f.note, f.sellCurrency, f.sellAmount,
                   f.buyCurrency, f.buyAmount, f.fee, f.exchangeDate)
  }

  /** The row `updateExchange` saves: the stored row with the form's note, currencies, amounts, fee and date. */
  function UpdatedRecord(before: ExchangeEntity, f: ExchangeForm): (r: ExchangeEntity)
    ensures r.exchangeSeq == before.exchangeSeq && r.account == before.account
    ensures r.note == f.note && r.exchangeDate == f.exchangeDate && r.fee == f.fee
    ensures r.sellCurrency == f.sellCurrency && r.sellAmount == f.sellAmount
    ensures r.buyCurrency == f.buyCurrency && r.buyAmount == f.buyAmount
    ensures r == NewRecord(before.exchangeSeq, f) <==> before.account == f.accountSeq
  {
    before.(note := f.note, sellCurrency := f.sellCurrency, sellAmount := f.sellAmount,
            buyCurrency := f.buyCurrency, buyAmount := f.buyAmount, fee := f.fee,
            exchangeDate := f.exchangeDate)
  }

  /** The three `updateAccountBalance` calls of `updateBalanceForInsert`, all on the form's account. */
  function InsertPostings(f: ExchangeForm): (r: seq<Posting>)
    ensures |r| == 3 && forall i :: 0 <= i < |r| ==> r[i].account == f.accountSeq
    ensures r[0].currency == f.sellCurrency && r[0].amount == -f.sellAmount
    ensures r[1].currency == f.buyCurrency && r[1].amount == f.buyAmount
    ensures r[2].currency == KRW && r[2].amount == -f.fee
  {
    [Posting(f.accountSeq, f.sellCurrency, -f.sellAmount),
     Posting(f.accountSeq, f.buyCurrency, f.buyAmount),
     Posting(f.accountSeq, KRW, -f.fee)]
  }

  /** The three `updateAccountBalance` calls of `updateBalanceForDelete`, all on the stored row's account. */
  function DeletePostings(e: ExchangeEntity): (r: seq<Posting>)
    ensures |r| == 3 && forall i :: 0 <= i < |r| ==> r[i].account == e.account
    ensures r[0].currency == e.sellCurrency && r[0].amount == e.sellAmount
    ensures r[1].currency == e.buyCurrency && r[1].amount == -e.buyAmount
    ensures r[2].currency == KRW && r[2].amount == e.fee
  {
    [Posting(e.account, e.sellCurrency, e.sellAmount),
     Posting(e.account, e.buyCurrency, -e.buyAmount),
     Posting(e.account, KRW, e.fee)]
  }

  /** The keys a stored exchange bears on. */
  function KeysOf(e: ExchangeEntity): set<BalanceKey> {
    {(e.account, e.sellCurrency), (e.account, e.buyCurrency), (e.account, KRW)}
  }

  /**
   * What a stored exchange contributes to one balance: minus the sell amount on
   * its sell currency, plus the buy amount on its buy currency, minus the fee on
   * KRW, the three adding up where currencies coincide.
   */
  function Contribution(e: ExchangeEntity, k: BalanceKey): real {
    (if k == (e.account, e.sellCurrency) then -e.sellAmount else 0.0)
    + (if k == (e.account, e.buyCurrency) then e.buyAmount else 0.0)
    + (if k == (e.account, KRW) then -e.fee else 0.0)
  }

  /** The sum of the contributions of all stored exchanges to one balance. */
  ghost function Total(records: map<int, ExchangeEntity>, k: BalanceKey): real
    decreases records.Keys
  {
    if records == map[] then 0.0
    else
      assert exists s :: s in records by {
        if forall s :: s !in records { assert false; }
      }
      var s :| s in records;
      Contribution(records[s], k) + Total(records - {s}, k)
  }

  /** The balance invariant: every balance is its opening value plus the contributions of the stored exchanges. */
  ghost predicate LedgerConsistent(opening: Balances, records: map<int, ExchangeEntity>, bal: Balances) {
    forall k :: BalanceOf(bal, k) == BalanceOf(opening, k) + Total(records, k)
  }

  /** `getExchange`: the stored exchange as a response, or the not-found error when no row has that identifier. */
  function GetExchange(records: map<int, ExchangeEntity>, exchangeSeq: int): (r: Result<ResExchangeModel, ServiceError>)
    ensures r.Ok? <==> exchangeSeq in records
    ensures r.Ok? ==> r.value == MapEntityToRes(records[exchangeSeq])
    ensures r.Err? ==> r.error == NotFound(ExchangeInfoNotFound)
  {
    if exchangeSeq in records then Ok(MapEntityToRes(records[exchangeSeq]))
    else Err(NotFound(ExchangeInfoNotFound))
  }

  /** The balance moves of saving a form are exactly the contributions of the row it stores. */
  lemma InsertNetIsContribution(f: ExchangeForm, exchangeSeq: int, k: BalanceKey)
    ensures Net(InsertPostings(f), k) == Contribution(NewRecord(exchangeSeq, f), k)
  {
    var ps := InsertPostings(f);
    NetThree(ps[0], ps[1], ps[2], k);
  }

  /** The balance moves of deleting a row are exactly minus its contributions. */
  lemma DeleteNetIsNegatedContribution(e: ExchangeEntity, k: BalanceKey)
    ensures Net(DeletePostings(e), k) == -Contribution(e, k)
  {
    var ps := DeletePostings(e);
    NetThree(ps[0], ps[1], ps[2], k);
  }

  /** `updateBalanceForDelete` of the row saved from a form negates each call of `updateBalanceForInsert` for that form. */
  lemma DeleteUndoesInsert(f: ExchangeForm, exchangeSeq: int)
    ensures DeletePostings(NewRecord(exchangeSeq, f)) == Negated(InsertPostings(f))
  {
  }

  /**
   * Saving changes exactly the three balances of the form's account in the sell,
   * buy and KRW currencies, by the stored row's contribution, and nothing else.
   */
  lemma SaveChangesOnlyItsBalances(bal: Balances, exchangeSeq: int, f: ExchangeForm)
    ensures Apply(bal, InsertPostings(f)).Keys == bal.Keys + KeysOf(NewRecord(exchangeSeq, f))
    ensures forall k :: k in bal && k !in KeysOf(NewRecord(exchangeSeq, f)) ==>
              Apply(bal, InsertPostings(f))[k] == bal[k]
    ensures forall k :: BalanceOf(Apply(bal, InsertPostings(f)), k)
                        == BalanceOf(bal, k) + Contribution(NewRecord(exchangeSeq, f), k)
  {
    var ps := InsertPostings(f);
    TouchedThree(ps[0], ps[1], ps[2]);
    ApplyFrame(bal, ps);
    forall k ensures BalanceOf(Apply(bal, InsertPostings(f)), k)
                     == BalanceOf(bal, k) + Contribution(NewRecord(exchangeSeq, f), k) {
      ApplyAt(bal, InsertPostings(f), k);
      InsertNetIsContribution(f, exchangeSeq, k);
    }
  }

  /** Round trip: saving a form and then deleting the row it stored restores every balance. */
  lemma SaveThenDeleteRestores(bal: Balances, exchangeSeq: int, f: ExchangeForm, k: BalanceKey)
    ensures BalanceOf(Apply(Apply(bal, InsertPostings(f)), DeletePostings(NewRecord(exchangeSeq, f))), k)
            == BalanceOf(bal, k)
  {
    DeleteUndoesInsert(f, exchangeSeq);
    ApplyThenUndo(bal, InsertPostings(f), k);
  }

  /** Taking one row out of the sum: the order in which `Total` visits the rows does not matter. */
  lemma {:induction false} TotalRemove(records: map<int, ExchangeEntity>, s: int, k: BalanceKey)
    requires s in records
    ensures Total(records, k) == Contribution(records[s], k) + Total(records - {s}, k)
    decreases records.Keys
  {
    var t :| t in records && Total(records, k) == Contribution(records[t], k) + Total(records - {t}, k);
    if t != s {
      TotalRemove(records - {t}, s, k);
      TotalRemove(records - {s}, t, k);
      assert records - {t} - {s} == records - {s} - {t};
    }
  }

  /** Saving a form under a fresh identifier keeps the balance invariant. */
  lemma SavePreservesConsistency(opening: Balances, records: map<int, ExchangeEntity>, bal: Balances,
                                 exchangeSeq: int, f: ExchangeForm)
    requires LedgerConsistent(opening, records, bal)
    requires exchangeSeq !in records
    ensures LedgerConsistent(opening, records[exchangeSeq := NewRecord(exchangeSeq, f)],
                             Apply(bal, InsertPostings(f)))
  {
    var after := records[exchangeSeq := NewRecord(exchangeSeq, f)];
    forall k ensures BalanceOf(Apply(bal, InsertPostings(f)), k) == BalanceOf(opening, k) + Total(after, k) {
      ApplyAt(bal, InsertPostings(f), k);
      InsertNetIsContribution(f, exchangeSeq, k);
      TotalRemove(after, exchangeSeq, k);
      assert after - {exchangeSeq} == records;
    }
  }

  /** Deleting a stored row and reversing its effect keeps the balance invariant. */
  lemma DeletePreservesConsistency(opening: Balances, records: map<int, ExchangeEntity>, bal: Balances,
                                   exchangeSeq: int)
    requires LedgerConsistent(opening, records, bal)
    requires exchangeSeq in records
    ensures LedgerConsistent(opening, records - {exchangeSeq}, Apply(bal, DeletePostings(records[exchangeSeq])))
  {
    var e := records[exchangeSeq];
    forall k ensures BalanceOf(Apply(bal, DeletePostings(e)), k)
                     == BalanceOf(opening, k) + Total(records - {exchangeSeq}, k) {
      ApplyAt(bal, DeletePostings(e), k);
      DeleteNetIsNegatedContribution(e, k);
      TotalRemove(records, exchangeSeq, k);
    }
  }

  /**
   * Editing a row keeps the balance invariant when the form names the row's own
   * account: the stored row keeps its account while the new moves go to the form's.
   */
  lemma UpdatePreservesConsistency(opening: Balances, records: map<int, ExchangeEntity>, bal: Balances,
                                   exchangeSeq: int, f: ExchangeForm)
    requires LedgerConsistent(opening, records, bal)
    requires exchangeSeq in records
    requires f.accountSeq == records[exchangeSeq].account
    ensures LedgerConsistent(opening, records[exchangeSeq := UpdatedRecord(records[exchangeSeq], f)],
                             Apply(Apply(bal, DeletePostings(records[exchangeSeq])), InsertPostings(f)))
  {
    var e := records[exchangeSeq];
    var after := records[exchangeSeq := UpdatedRecord(e, f)];
    var mid := Apply(bal, DeletePostings(e));
    forall k ensures BalanceOf(Apply(mid, InsertPostings(f)), k) == BalanceOf(opening, k) + Total(after, k) {
      ApplyAt(bal, DeletePostings(e), k);
      ApplyAt(mid, InsertPostings(f), k);
      DeleteNetIsNegatedContribution(e, k);
      InsertNetIsContribution(f, exchangeSeq, k);
      assert Contribution(UpdatedRecord(e, f), k) == Contribution(NewRecord(exchangeSeq, f), k);
      TotalRemove(records, exchangeSeq, k);
      TotalRemove(after, exchangeSeq, k);
      assert after - {exchangeSeq} == records - {exchangeSeq};
    }
  }

  /**
   * A concrete case of `UpdateToOtherAccountConsistentIff`: when the form names
   * another account and buys a nonzero amount of a currency that is neither
   * KRW nor the one sold, the form's account gains that amount while no stored
   * row accounts for it.
   */
  lemma UpdateToOtherAccountBreaksConsistency(opening: Balances, records: map<int, ExchangeEntity>,
                                              bal: Balances, exchangeSeq: int, f: ExchangeForm)
    requires LedgerConsistent(opening, records, bal)
    requires exchangeSeq in records
    requires f.accountSeq != records[exchangeSeq].account
    requires f.buyCurrency != f.sellCurrency && f.buyCurrency != KRW && f.buyAmount != 0.0
    ensures !LedgerConsistent(opening, records[exchangeSeq := UpdatedRecord(records[exchangeSeq], f)],
                              Apply(Apply(bal, DeletePostings(records[exchangeSeq])), InsertPostings(f)))
  {
    var e := records[exchangeSeq];
    var after := records[exchangeSeq := UpdatedRecord(e, f)];
    var mid := Apply(bal, DeletePostings(e));
    var k := (f.accountSeq, f.buyCurrency);
    ApplyAt(bal, DeletePostings(e), k);
    ApplyAt(mid, InsertPostings(f), k);
    DeleteNetIsNegatedContribution(e, k);
    InsertNetIsContribution(f, exchangeSeq, k);
    TotalRemove(records, exchangeSeq, k);
    TotalRemove(after, exchangeSeq, k);
    assert after - {exchangeSeq} == records - {exchangeSeq};
    assert BalanceOf(Apply(mid, InsertPostings(f)), k) != BalanceOf(opening, k) + Total(after, k);
  }

  /**
   * How far an edit leaves one balance from what the stored rows account for,
   * for any form: the form's moves (on the form's account) minus the edited
   * row's contribution (on the row's own account).
   */
  lemma UpdateGap(opening: Balances, records: map<int, ExchangeEntity>, bal: Balances,
                  exchangeSeq: int, f: ExchangeForm, k: BalanceKey)
    requires LedgerConsistent(opening, records, bal)
    requires exchangeSeq in records
    ensures BalanceOf(Apply(Apply(bal, DeletePostings(records[exchangeSeq])), InsertPostings(f)), k)
            - (BalanceOf(opening, k) + Total(records[exchangeSeq := UpdatedRecord(records[exchangeSeq], f)], k))
            == Contribution(NewRecord(exchangeSeq, f), k) - Contribution(UpdatedRecord(records[exchangeSeq], f), k)
  {
    var e := records[exchangeSeq];
    var after := records[exchangeSeq := UpdatedRecord(e, f)];
    var mid := Apply(bal, DeletePostings(e));
    ApplyAt(bal, DeletePostings(e), k);
    ApplyAt(mid, InsertPostings(f), k);
    DeleteNetIsNegatedContribution(e, k);
    InsertNetIsContribution(f, exchangeSeq, k);
    TotalRemove(records, exchangeSeq, k);
    TotalRemove(after, exchangeSeq, k);
    assert after - {exchangeSeq} == records - {exchangeSeq};
  }

  /**
   * Editing a row with a form that names another account keeps the balance
   * invariant exactly when the form's row contributes nothing to any balance
   * (its three moves cancel on every currency, as when all amounts are zero).
   */
  lemma UpdateToOtherAccountConsistentIff(opening: Balances, records: map<int, ExchangeEntity>, bal: Balances,
                                          exchangeSeq: int, f: ExchangeForm)
    requires LedgerConsistent(opening, records, bal)
    requires exchangeSeq in records
    requires f.accountSeq != records[exchangeSeq].account
    ensures LedgerConsistent(opening, records[exchangeSeq := UpdatedRecord(records[exchangeSeq], f)],
                             Apply(Apply(bal, DeletePostings(records[exchangeSeq])), InsertPostings(f)))
            <==> forall k :: Contribution(NewRecord(exchangeSeq, f), k) == 0.0
  {
    var e := records[exchangeSeq];
    var n := NewRecord(exchangeSeq, f);
    var edited := UpdatedRecord(e, f);
    var after := records[exchangeSeq := edited];
    var newBal := Apply(Apply(bal, DeletePostings(e)), InsertPostings(f));
    forall k ensures BalanceOf(newBal, k) - (BalanceOf(opening, k) + Total(after, k))
                     == Contribution(n, k) - Contribution(edited, k) {
      UpdateGap(opening, records, bal, exchangeSeq, f, k);
    }
    if LedgerConsistent(opening, after, newBal) {
      forall k ensures Contribution(n, k) == 0.0 {
        if k.0 == f.accountSeq {
          assert Contribution(edited, k) == 0.0;
        }
      }
    }
    if forall k :: Contribution(n, k) == 0.0 {
      forall k ensures BalanceOf(newBal, k) == BalanceOf(opening, k) + Total(after, k) {
        assert Contribution(edited, k) == 0.0 by {
          if k.0 == e.account {
            assert Contribution(edited, k) == Contribution(n, (f.accountSeq, k.1));
          }
        }
      }
    }
  }

  /**
   * Editing a row in place leaves the same sum of contributions on every balance
   * as deleting it and saving the form as a new row, when the form names the
   * row's account. The balances themselves agree for every form
   * (`UpdateMatchesDeleteThenSaveOnBalances`).
   */
  lemma UpdateMatchesDeleteThenSave(records: map<int, ExchangeEntity>, exchangeSeq: int, newSeq: int,
                                    f: ExchangeForm, k: BalanceKey)
    requires exchangeSeq in records && newSeq !in records
    requires f.accountSeq == records[exchangeSeq].account
    ensures Total(records[exchangeSeq := UpdatedRecord(records[exchangeSeq], f)], k)
            == Total((records - {exchangeSeq})[newSeq := NewRecord(newSeq, f)], k)
  {
    var updated := records[exchangeSeq := UpdatedRecord(records[exchangeSeq], f)];
    var replaced := (records - {exchangeSeq})[newSeq := NewRecord(newSeq, f)];
    TotalRemove(updated, exchangeSeq, k);
    TotalRemove(replaced, newSeq, k);
    assert updated - {exchangeSeq} == records - {exchangeSeq};
    assert replaced - {newSeq} == records - {exchangeSeq};
  }

  /**
   * The worked example: selling KRW 10,000 for USD 8.55 with fee 5 from account 1,
   * then editing it to KRW 20,000 for USD 17.10, then deleting it.
   */
  lemma ExchangeScenario()
    ensures var f1 := ExchangeForm(1, 1, "", KRW, 10000.0, "USD", 8.55, 5.0, "");
            var f2 := ExchangeForm(1, 1, "", KRW, 20000.0, "USD", 17.10, 5.0, "");
            var saved := NewRecord(1, f1);
            var b1 := Apply(map[], InsertPostings(f1));
            var b2 := Apply(Apply(b1, DeletePostings(saved)), InsertPostings(f2));
            var b3 := Apply(b2, DeletePostings(UpdatedRecord(saved, f2)));
            && BalanceOf(b1, (1, KRW)) == -10005.0 && BalanceOf(b1, (1, "USD")) == 8.55
            && BalanceOf(b2, (1, KRW)) == -20005.0 && BalanceOf(b2, (1, "USD")) == 17.10
            && BalanceOf(b3, (1, KRW)) == 0.0 && BalanceOf(b3, (1, "USD")) == 0.0
  {
    var f1 := ExchangeForm(1, 1, "", KRW, 10000.0, "USD", 8.55, 5.0, "");
    var f2 := ExchangeForm(1, 1, "", KRW, 20000.0, "USD", 17.10, 5.0, "");
    var saved := NewRecord(1, f1);
    var b1 := Apply(map[], InsertPostings(f1));
    var b2 := Apply(Apply(b1, DeletePostings(saved)), InsertPostings(f2));
    var b3 := Apply(b2, DeletePostings(UpdatedRecord(saved, f2)));
    assert KRW != "USD";
    forall k | k in {(1, KRW), (1, "USD")}
      ensures BalanceOf(b1, k) == Contribution(saved, k)
      ensures BalanceOf(b2, k) == Contribution(UpdatedRecord(saved, f2), k)
      ensures BalanceOf(b3, k) == 0.0
    {
      SaveChangesOnlyItsBalances(map[], 1, f1);
      UpdateBalances(b1, saved, f2, k);
      ApplyAt(b2, DeletePostings(UpdatedRecord(saved, f2)), k);
      DeleteNetIsNegatedContribution(UpdatedRecord(saved, f2), k);
    }
  }

  /** The balance moves of editing a row whose account the form keeps: minus the old contribution, plus the new. */
  lemma UpdateBalances(bal: Balances, e: ExchangeEntity, f: ExchangeForm, k: BalanceKey)
    requires f.accountSeq == e.account
    ensures BalanceOf(Apply(Apply(bal, DeletePostings(e)), InsertPostings(f)), k)
            == BalanceOf(bal, k) - Contribution(e, k) + Contribution(UpdatedRecord(e, f), k)
  {
    ApplyAt(bal, DeletePostings(e), k);
    ApplyAt(Apply(bal, DeletePostings(e)), InsertPostings(f), k);
    DeleteNetIsNegatedContribution(e, k);
    InsertNetIsContribution(f, e.exchangeSeq, k);
  }

  /**
   * The exchange service: the exchange table keyed by `exchangeSeq`, the
   * balances of the account service, and the next identifier the table assigns.
   * Each public operation runs in one transaction: every failure is found
   * before the first write, and a failed call leaves all three fields as they were.
   */
  class ExchangeService {
    var records: map<int, ExchangeEntity>
    var balance: Balances
    var nextSeq: int
    /** The balances before any exchange was recorded. */
    ghost const opening: Balances

    /** Rows are stored under their own identifier, and every identifier handed out is below `nextSeq`. */
    ghost predicate Valid()
      reads this
    {
      forall s :: s in records ==> records[s].exchangeSeq == s && s < nextSeq
    }

    /** The balance invariant for the current state. */
    ghost predicate Consistent()
      reads this
    {
      LedgerConsistent(opening, records, balance)
    }

    constructor (initial: Balances)
      ensures Valid() && Consistent()
      ensures records == map[] && balance == initial && nextSeq == 1
    {
      records := map[];
      balance := initial;
      nextSeq := 1;
      opening := initial;
    }

    /** `AccountService.updateAccountBalance`: add `amount` to the entry, a missing entry counting as 0. */
    method UpdateAccountBalance(account: AccountSeq, currency: Currency, amount: real)
      modifies this`balance
      ensures balance == Credit(old(balance), Posting(account, currency, amount))
    {
      var key := (account, currency);
      balance := balance[key := BalanceOf(balance, key) + amount];
    }

    /** `updateBalanceForInsert`: the form's three moves, on the form's account. */
    method UpdateBalanceForInsert(f: ExchangeForm)
      modifies this`balance
      ensures balance == Apply(old(balance), InsertPostings(f))
    {
      var ps := InsertPostings(f);
      UpdateAccountBalance(f.accountSeq, f.sellCurrency, -f.sellAmount);
      UpdateAccountBalance(f.accountSeq, f.buyCurrency, f.buyAmount);
      UpdateAccountBalance(f.accountSeq, KRW, -f.fee);
      ApplyThree(old(balance), ps[0], ps[1], ps[2]);
    }

    /** `updateBalanceForDelete`: the stored row's three moves negated, on the row's account. */
    method UpdateBalanceForDelete(before: ExchangeEntity)
      modifies this`balance
      ensures balance == Apply(old(balance), DeletePostings(before))
    {
      var ps := DeletePostings(before);
      UpdateAccountBalance(before.account, before.sellCurrency, before.sellAmount);
      UpdateAccountBalance(before.account, before.buyCurrency, -before.buyAmount);
      UpdateAccountBalance(before.account, KRW, before.fee);
      ApplyThree(old(balance), ps[0], ps[1], ps[2]);
    }

    /** `saveExchange`: store one new row built from the form, then apply its moves. */
    method SaveExchange(f: ExchangeForm)
      requires Valid()
      modifies this
      ensures Valid()
      ensures old(nextSeq) !in old(records)
      ensures records == old(records)[old(nextSeq) := NewRecord(old(nextSeq), f)]
      ensures balance == Apply(old(balance), InsertPostings(f))
      ensures nextSeq == old(nextSeq) + 1
      ensures old(Consistent()) ==> Consistent()
    {
      var entity := NewRecord(nextSeq, f);
      records := records[nextSeq := entity];
      nextSeq := nextSeq + 1;
      UpdateBalanceForInsert(f);
      if old(Consistent()) {
        SavePreservesConsistency(opening, old(records), old(balance), old(nextSeq), f);
      }
    }

    /**
     * `updateExchange`: reverse the stored row's moves, overwrite its note,
     * currencies, amounts, fee and date (keeping its identifier and account),
     * then apply the form's moves on the form's account.
     */
    method UpdateExchange(f: ExchangeForm) returns (r: Outcome<ServiceError>)
      requires Valid()
      modifies this
      ensures Valid() && nextSeq == old(nextSeq)
      ensures r.Pass? <==> f.exchangeSeq in old(records)
      ensures r.Fail? ==> r.error == NotFound(TradeInfoNotFound)
                          && records == old(records) && balance == old(balance)
      ensures r.Pass? ==> records == old(records)[f.exchangeSeq := UpdatedRecord(old(records)[f.exchangeSeq], f)]
      ensures r.Pass? ==> balance == Apply(Apply(old(balance), DeletePostings(old(records)[f.exchangeSeq])),
                                           InsertPostings(f))
      ensures r.Pass? ==> var e, e' := old(records)[f.exchangeSeq], records[f.exchangeSeq];
                          && e'.exchangeSeq == e.exchangeSeq && e'.account == e.account
                          && e'.note == f.note && e'.exchangeDate == f.exchangeDate
                          && e'.sellCurrency == f.sellCurrency && e'.sellAmount == f.sellAmount
                          && e'.buyCurrency == f.buyCurrency && e'.buyAmount == f.buyAmount && e'.fee == f.fee
      ensures r.Pass? && old(Consistent()) && f.accountSeq == old(records)[f.exchangeSeq].account ==> Consistent()
      ensures r.Pass? && old(Consistent()) && f.accountSeq != old(records)[f.exchangeSeq].account ==>
                (Consistent() <==> forall k :: Contribution(NewRecord(f.exchangeSeq, f), k) == 0.0)
    {
      if f.exchangeSeq !in records {
        return Fail(NotFound(TradeInfoNotFound));
      }
      var before := records[f.exchangeSeq];
      UpdateBalanceForDelete(before);
      var updateData := UpdatedRecord(before, f);
      records := records[f.exchangeSeq := updateData];
      UpdateBalanceForInsert(f);
      if old(Consistent()) && f.accountSeq == before.account {
        UpdatePreservesConsistency(opening, old(records), old(balance), f.exchangeSeq, f);
      } else if old(Consistent()) {
        UpdateToOtherAccountConsistentIff(opening, old(records), old(balance), f.exchangeSeq, f);
      }
      r := Pass;
    }

    /** `deleteExchange`: remove the row, then reverse its stored moves. */
    method DeleteExchange(exchangeSeq: int) returns (r: Outcome<ServiceError>)
      requires Valid()
      modifies this
      ensures Valid() && nextSeq == old(nextSeq)
      ensures r.Pass? <==> exchangeSeq in old(records)
      ensures r.Fail? ==> r.error == NotFound(TradeInfoNotFound)
                          && records == old(records) && balance == old(balance)
      ensures r.Pass? ==> records == old(records) - {exchangeSeq}
      ensures r.Pass? ==> balance == Apply(old(balance), DeletePostings(old(records)[exchangeSeq]))
      ensures r.Pass? && old(Consistent()) ==> Consistent()
    {
      if exchangeSeq !in records {
        return Fail(NotFound(TradeInfoNotFound));
      }
      var before := records[exchangeSeq];
      records := records - {exchangeSeq};
      UpdateBalanceForDelete(before);
      if old(Consistent()) {
        DeletePreservesConsistency(opening, old(records), old(balance), exchangeSeq);
      }
      r := Pass;
    }
  }

  /**
   * Editing a row moves the balances exactly as deleting it and saving the form
   * anew does, whatever account the form names: both paths reverse the stored
   * row's moves and apply the form's moves on the form's account. The two paths
   * differ in the table only: the edited row keeps its identifier and its old
   * account, the saved row gets a fresh identifier and the form's account.
   */
  method UpdateMatchesDeleteThenSaveOnBalances(edited: ExchangeService, replaced: ExchangeService, f: ExchangeForm)
    requires edited != replaced && edited.Valid() && replaced.Valid()
    requires edited.records == replaced.records && edited.balance == replaced.balance
    requires f.exchangeSeq in edited.records
    modifies edited, replaced
    ensures edited.balance == replaced.balance
    ensures f.exchangeSeq in edited.records && f.exchangeSeq !in replaced.records
    ensures edited.records[f.exchangeSeq].account == old(edited.records)[f.exchangeSeq].account
    ensures old(replaced.nextSeq) in replaced.records
            && replaced.records[old(replaced.nextSeq)].account == f.accountSeq
  {
    var updated := edited.UpdateExchange(f);
    var deleted := replaced.DeleteExchange(f.exchangeSeq);
    replaced.SaveExchange(f);
  }
}
