/**
  The slice of the UEFI interface that the BGGP5 applications use: status
  codes, the firmware calls they make (recorded in a call log), and the
  buffers and tokens those calls refer to.

  Status values follow Appendix D of the UEFI Specification: an error code
  has the top bit of the 64-bit UINTN set.
*/
module Efi {

  /** EFI_STATUS, a UINTN on the 64-bit targets the applications are built for. */
  type Status = x: int | 0 <= x < 0x1_0000_0000_0000_0000

  const ERROR_BIT: int := 0x8000_0000_0000_0000

  /** EFI_ERROR(s): the top bit is set. */
  predicate IsError(s: Status) {
    s >= ERROR_BIT
  }

  const EFI_SUCCESS: Status := 0
  const EFI_OUT_OF_RESOURCES: Status := ERROR_BIT + 9
  const EFI_NOT_FOUND: Status := ERROR_BIT + 14
  const EFI_TIMEOUT: Status := ERROR_BIT + 18
  const EFI_ABORTED: Status := ERROR_BIT + 21

  /** Value of HTTP_STATUS_200_OK in EDK II's EFI_HTTP_STATUS_CODE enumeration (not the HTTP code 200). */
  const HTTP_STATUS_200_OK: nat := 3

  /** The response body capacity every variant declares and allocates. */
  const BODY_SIZE: nat := 0x1000

  /** An EFI_HANDLE, as the firmware returns it. */
  datatype Handle = Handle(id: nat)

  /** The two EFI_HTTP_TOKENs of the raw-protocol variants. */
  datatype Token = RequestToken | ResponseToken

  /** The pool buffers the applications free. */
  datatype Buffer = ControllersBuffer | ResponseBody

  /** What GetTime returns: its status and the Second field of the EFI_TIME it fills. */
  datatype Time = Time(status: Status, second: nat)

  /** One call into the firmware or into an EDK II library, as recorded in the call log. */
  datatype Call =
    | LocateHandleBuffer
    | LocateProtocol
    | OpenServiceBinding(controller: Handle)
    | CreateChild
    | OpenHttp(controller: Handle)
    | HandleProtocol
    | Configure
    | CreateEvent(token: Token)
    | Request
    | Response(capacity: nat)
    | Poll
    | GetTime
    | Cancel(token: Token)
    | AllocatePool(size: nat)
    | FreePool(buffer: Buffer)
    | DestroyChild
    | PrintBody(length: nat)
    | HttpIoCreateIo(controller: Handle)
    | HttpIoSendRequest
    | HttpIoRecvResponse(capacity: nat)
    | HttpIoDestroyIo

  /**
    The stage at which a linear sequence of steps stops: the index of the
    first step that fails, or the number of steps when all of them succeed.
  */
  function FirstFailure(ok: seq<bool>): (k: nat)
    ensures k <= |ok|
    ensures forall j :: 0 <= j < k ==> ok[j]
    ensures k < |ok| ==> !ok[k]
  {
    if ok == [] || !ok[0] then 0 else 1 + FirstFailure(ok[1..])
  }

  /** The stop stage is the only one with those two properties. */
  lemma {:induction false} FirstFailureUnique(ok: seq<bool>, k: nat)
    requires k <= |ok|
    requires forall j :: 0 <= j < k ==> ok[j]
    requires k < |ok| ==> !ok[k]
    ensures FirstFailure(ok) == k
  {
    if 0 < k {
      FirstFailureUnique(ok[1..], k - 1);
    }
  }

  /** How a run of UefiMain ends: the status it returns and the calls it made. */
  datatype Outcome = Outcome(status: Status, log: seq<Call>)

  /** `c` occurs in `log` exactly once. */
  ghost predicate OccursOnce(log: seq<Call>, c: Call) {
    exists before, after :: log == before + [c] + after && c !in before && c !in after
  }

  /** A call with no other occurrence on either side of it occurs once. */
  lemma OnceBetween(before: seq<Call>, c: Call, after: seq<Call>)
    requires c !in before && c !in after
    ensures OccursOnce(before + [c] + after, c)
  {
    assert before + [c] + after == before + [c] + after;
  }

  /** A call appended to a log without it is the last call and occurs nowhere before. */
  lemma LastOnly(before: seq<Call>, c: Call)
    requires c !in before
    ensures var log := before + [c]; log[|log| - 1] == c && c !in log[..|log| - 1]
  {
    var log := before + [c];
    assert log[..|log| - 1] == before;
  }
}
