/** Failure-compatible wrappers used for the source's `undefined` results and thrown errors. */
module Wrappers {

  /** A value that may be absent (the source's `T | undefined`). */
  datatype Option<+T> = None | Some(value: T)

  /** A value or the error a source function throws instead of returning. */
  datatype Result<+T, +E> = Ok(value: T) | Err(error: E)

  /** Success without a value, or the error thrown (a `Promise<void>` that may reject). */
  datatype Outcome<+E> = Pass | Fail(error: E)
}

/** Shared enumerations and value shapes of the application (`CommonType`, `BokslTypes`). */
module CommonType {

  /** Account identifier (`accountSeq`). */
  type AccountSeq = int

  /** Currency code; the members of the `Currency` enum are not part of this model, only KRW is singled out. */
  type Currency = string

  /** The base currency: exchange fees are always settled in it. */
  const KRW: Currency := "KRW"

  /** Direction of an exchange as seen from the base currency. */
  datatype ExchangeKind = Sell | Buy

  /** Kinds of cash transaction. `OtherTransactionKind` stands for any value outside the enum reaching the code at run time. */
  datatype TransactionKind = Income | Spending | Transfer | OtherTransactionKind(tag: string)

  /** Main code kinds of the code table. `OtherCodeKind` stands for the members of the enum this model does not list. */
  datatype CodeKind = IncomeAttr | SpendingAttr | TransferAttr | StockType | NationType | OtherCodeKind(name: string)

  /** An entry of a select box (`OptionType`); `text` is its `label` (a reserved word in Dafny). */
  datatype SelectOption = SelectOption(value: int, text: string)
}
