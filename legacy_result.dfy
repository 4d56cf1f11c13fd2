/**
 * The older `Result` class of `app/utils.py`. Its `Status` is a plain
 * `Enum`, so a member is not an integer: the constructor may receive either
 * a member or a bare number, and stores whichever it was given when it is
 * kept. Membership of a bare number follows Python 3.12 and later, where
 * `n in Status` asks whether `n` is the value of some member.
 */
module LegacyResult {
  import opened Support
  import opened Json
  import ResultModel

  type Status = ResultModel.Status

  /** What a status argument can be: a `Status` member or a bare number. */
  datatype StatusArg = Member(status: Status) | Number(n: int)

  /** The code a status argument stands for. */
  function CodeOf(a: StatusArg): int {
    match a
    case Member(s) => s.Code()
    case Number(n) => n
  }

  /** `approval_status and approval_status in Status`: members are always truthy. */
  predicate Kept(a: StatusArg) {
    match a
    case Member(_) => true
    case Number(n) => n != 0 && ResultModel.IsCode(n)
  }

  /** The approval status the constructor stores: the argument when it is kept, `Status.NONE` otherwise. */
  function StoredApproval(approval: Option<StatusArg>): (r: StatusArg)
    ensures approval.Some? && Kept(approval.value) ==> r == approval.value
    ensures !(approval.Some? && Kept(approval.value)) ==> r == Member(ResultModel.NONE)
    ensures ResultModel.IsCode(CodeOf(r))
  {
    if approval.Some? && Kept(approval.value) then approval.value else Member(ResultModel.NONE)
  }

  /**
   * The older class stores the same approval code as the `IntEnum` one of
   * `app/utils/result.py` for every argument.
   */
  lemma AgreesWithIntEnum(approval: Option<StatusArg>)
    ensures CodeOf(StoredApproval(approval)) == ResultModel.ApprovalOf(if approval.Some? then Some(CodeOf(approval.value)) else None)
  {
    if approval.Some? && approval.value.Member? {
      ResultModel.StatusCodes(approval.value.status, ResultModel.NONE);
    }
  }

  class Result {
    var description: string
    var validationStatus: StatusArg
    var approvalStatus: StatusArg
    var details: seq<string>

    /** The stored approval status always stands for a member. */
    predicate Valid()
      reads this
    {
      ResultModel.IsCode(CodeOf(approvalStatus))
    }

    /** `Result(description, validation_status, approval_status=None)`. */
    constructor(description: string, validationStatus: StatusArg, approval: Option<StatusArg>)
      ensures Valid()
      ensures this.description == description && this.validationStatus == validationStatus
      ensures approvalStatus == StoredApproval(approval) && details == []
    {
      this.description := description;
      this.validationStatus := validationStatus;
      this.approvalStatus := StoredApproval(approval);
      this.details := [];
    }

    /** `add_detail(detail)`: appends exactly one entry, JSON-encoding anything but a string. */
    method AddDetail(detail: Json)
      modifies this
      ensures details == old(details) + [ResultModel.DetailText(detail)]
      ensures description == old(description) && validationStatus == old(validationStatus)
      ensures approvalStatus == old(approvalStatus)
    {
      details := details + [ResultModel.DetailText(detail)];
    }
  }
}
