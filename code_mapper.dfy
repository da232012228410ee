/**
 * The renderer's code-table lookups (`CodeMapper`). The module-level code table
 * is passed in as `mapping`; loading it over IPC is not part of this model.
 */
module CodeMapper {
  import opened Wrappers
  import opened CommonType
  import opened Lists

  /** A sub-code of a main code (`ResCodeValueModel`). */
  datatype ResCodeValueModel = ResCodeValueModel(codeSeq: int, name: string)

  /** A main code with its sub-codes (`ResCodeModel`). */
  datatype ResCodeModel = ResCodeModel(code: CodeKind, subCodeList: seq<ResCodeValueModel>)

  /** The `find` test for a main code of the given kind. */
  function HasKind(kind: CodeKind): ResCodeModel -> bool {
    (c: ResCodeModel) => c.code == kind
  }

  /** The `find` test for a sub-code with the given identifier. */
  function HasCodeSeq(codeSeq: int): ResCodeValueModel -> bool {
    (v: ResCodeValueModel) => v.codeSeq == codeSeq
  }

  /**
   * `getCodeValue`: the name of the first sub-code with `codeSeq` under the first
   * main code of `codeKind`; absent when there is no such main code, or when that
   * main code has no such sub-code.
   */
  function GetCodeValue(mapping: seq<ResCodeModel>, codeKind: CodeKind, codeSeq: int): (r: Option<string>)
    ensures (forall i :: 0 <= i < |mapping| ==> mapping[i].code != codeKind) ==> r == None
    ensures forall i :: IsFirst(mapping, HasKind(codeKind), i) ==>
              (r.None? <==> forall j :: 0 <= j < |mapping[i].subCodeList| ==> mapping[i].subCodeList[j].codeSeq != codeSeq)
    ensures forall i, j :: IsFirst(mapping, HasKind(codeKind), i) && IsFirst(mapping[i].subCodeList, HasCodeSeq(codeSeq), j) ==>
              r == Some(mapping[i].subCodeList[j].name)
  {
    match Find(mapping, HasKind(codeKind))
    case None => None
    case Some(code) =>
      match Find(code.subCodeList, HasCodeSeq(codeSeq))
      case None => None
      case Some(v) => Some(v.name)
  }

  /** `getCodeSubList`: the sub-codes of the first main code of the kind, or none when the kind is absent. */
  function GetCodeSubList(mapping: seq<ResCodeModel>, mainCode: CodeKind): (r: seq<ResCodeValueModel>)
    ensures (forall i :: 0 <= i < |mapping| ==> mapping[i].code != mainCode) ==> r == []
    ensures forall i :: IsFirst(mapping, HasKind(mainCode), i) ==> r == mapping[i].subCodeList
  {
    match Find(mapping, HasKind(mainCode))
    case None => []
    case Some(code) => code.subCodeList
  }

  /**
   * `getCodeList`: a copy of the whole table. Sequences are values, so the
   * copy equals the table and nothing done with it can reach the table.
   */
  function GetCodeList(mapping: seq<ResCodeModel>): (r: seq<ResCodeModel>)
    ensures r == mapping
  {
    mapping
  }

  /** `getTransactionKindToCodeMapping`: the attribute code kind of each cash-transaction kind; any other value throws. */
  function GetTransactionKindToCodeMapping(transactionKind: TransactionKind): (r: Result<CodeKind, string>)
    ensures r == Ok(IncomeAttr) <==> transactionKind == Income
    ensures r == Ok(SpendingAttr) <==> transactionKind == Spending
    ensures r == Ok(TransferAttr) <==> transactionKind == Transfer
    ensures r.Err? <==> transactionKind.OtherTransactionKind?
    ensures r.Err? ==> r.error == "invalid transationKind: " + transactionKind.tag
  {
    match transactionKind
    case Income => Ok(IncomeAttr)
    case Spending => Ok(SpendingAttr)
    case Transfer => Ok(TransferAttr)
    case OtherTransactionKind(tag) => Err("invalid transationKind: " + tag)
  }

  /** The select-box entry of a sub-code: its identifier as value, its name as label. */
  function CodeOption(v: ResCodeValueModel): SelectOption {
    SelectOption(v.codeSeq, v.name)
  }

  /** `getCodeSubOptionList`: one entry per sub-code of `getCodeSubList`, in the same order. */
  function GetCodeSubOptionList(mapping: seq<ResCodeModel>, mainCode: CodeKind): (r: seq<SelectOption>)
    ensures |r| == |GetCodeSubList(mapping, mainCode)|
    ensures forall i :: 0 <= i < |r| ==>
              r[i].value == GetCodeSubList(mapping, mainCode)[i].codeSeq
              && r[i].text == GetCodeSubList(mapping, mainCode)[i].name
  {
    MapSeq(GetCodeSubList(mapping, mainCode), CodeOption)
  }
}
