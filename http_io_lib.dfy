/**
  BGGP5_HttpIoLib.c: the variant built on EDK II's HttpIoLib. It locates the
  network controllers, opens an HttpIo on the first one, sends a GET, allocates
  a 0x1000-byte body buffer, receives the response, checks its status code,
  prints the body and releases what it acquired through the cleanup labels
  `out_free_response`, `out_free_httpio`, `out_free_controllers` and `out`.

  The firmware and HttpIoLib are an oracle: `Firmware` holds what each call
  returns. `UefiMain` runs the source's control flow (each `goto` is a `break`
  out of a labelled block) and returns the status and the log of calls it
  made; it is proved against `Behaviour`, which says the same thing stage by
  stage.
*/
module HttpIoLib {
  import opened Efi

  /**
    What the calls return: LocateHandleBuffer's status, the handles it finds
    (NControllers is their number) and whether it leaves the Controllers pointer
    NULL (tested only after it succeeded);
    the statuses of HttpIoCreateIo, HttpIoSendRequest and HttpIoRecvResponse;
    whether AllocatePool returns a buffer; and the status code and BodyLength
    of the response.
  */
  datatype Firmware = Firmware(
    locate: Status,
    handles: seq<Handle>,
    controllersNull: bool,
    createIo: Status,
    sendRequest: Status,
    allocateSucceeds: bool,
    recvResponse: Status,
    statusCode: nat,
    bodyLength: nat)

  /**
    Whether each of the seven checks succeeds, in the order UefiMain makes
    them: the locate status, a non-zero NIC count, the three HttpIo calls
    with the allocation between the last two, and the response status code.
  */
  function Oks(fw: Firmware): seq<bool> {
    [!IsError(fw.locate), |fw.handles| != 0, !IsError(fw.createIo), !IsError(fw.sendRequest),
     fw.allocateSucceeds, !IsError(fw.recvResponse), fw.statusCode == HTTP_STATUS_200_OK]
  }

  /** Index of the first check that fails; 7 when all succeed. */
  function Stage(fw: Firmware): nat {
    if IsError(fw.locate) then 0
    else if |fw.handles| == 0 then 1
    else if IsError(fw.createIo) then 2
    else if IsError(fw.sendRequest) then 3
    else if !fw.allocateSucceeds then 4
    else if IsError(fw.recvResponse) then 5
    else if fw.statusCode != HTTP_STATUS_200_OK then 6
    else 7
  }

  /** The stage is where the sequence of checks first fails. */
  lemma StageIsFirstFailure(fw: Firmware)
    ensures Stage(fw) == FirstFailure(Oks(fw))
  {
    FirstFailureUnique(Oks(fw), Stage(fw));
  }

  /**
    The calls UefiMain makes before it starts releasing, when it stops at
    stage `e`: each call is made once every check before it succeeded, and
    the body is printed when none fails.
  */
  function Made(fw: Firmware, e: nat): (r: seq<Call>)
    requires 2 <= e ==> |fw.handles| != 0
    ensures FreePool(ResponseBody) !in r && FreePool(ControllersBuffer) !in r && HttpIoDestroyIo !in r
  {
    [LocateHandleBuffer]
    + (if 2 <= e then [HttpIoCreateIo(fw.handles[0])] else [])
    + (if 3 <= e then [HttpIoSendRequest] else [])
    + (if 4 <= e then [AllocatePool(BODY_SIZE)] else [])
    + (if 5 <= e then [HttpIoRecvResponse(BODY_SIZE)] else [])
    + (if e == 7 then [PrintBody(fw.bodyLength)] else [])
  }

  /** The status UefiMain returns when it stops at stage `e`. */
  function StatusAt(fw: Firmware, e: nat): Status {
    match e
    case 0 => fw.locate
    case 1 => EFI_NOT_FOUND
    case 2 => fw.createIo
    case 3 => fw.sendRequest
    case 4 => EFI_OUT_OF_RESOURCES
    case 5 => fw.recvResponse
    case 6 => EFI_ABORTED
    case _ => fw.recvResponse
  }

  /**
    What UefiMain does, stage by stage: the calls it makes, then the
    releases of what it acquired, newest first (the body once allocated,
    the HttpIo once created, the controllers buffer once located unless the
    pointer is NULL).
  */
  function Behaviour(fw: Firmware): Outcome {
    var e := Stage(fw);
    Outcome(
      StatusAt(fw, e),
      Made(fw, e)
      + (if 5 <= e then [FreePool(ResponseBody)] else [])
      + (if 3 <= e then [HttpIoDestroyIo] else [])
      + (if 1 <= e && !fw.controllersNull then [FreePool(ControllersBuffer)] else []))
  }

  method UefiMain(fw: Firmware) returns (status: Status, log: seq<Call>)
    ensures Outcome(status, log) == Behaviour(fw)
  {
    // ResponseData.BodyLength; set before the allocation
    var bodyLength := 0;
    status := EFI_SUCCESS;
    label out: {
      label out_free_controllers: {
        label out_free_httpio: {
          label out_free_response: {
            log := [LocateHandleBuffer];
            status := fw.locate;
            if IsError(status) || |fw.handles| == 0 {
              if IsError(status) {
                break out;
              }
              status := EFI_NOT_FOUND;
              break out_free_controllers;
            }
            log := log + [HttpIoCreateIo(fw.handles[0])];
            status := fw.createIo;
            if IsError(status) {
              break out_free_controllers;
            }
            log := log + [HttpIoSendRequest];
            status := fw.sendRequest;
            if IsError(status) {
              break out_free_httpio;
            }
            bodyLength := 0x1000;
            log := log + [AllocatePool(bodyLength)];
            if !fw.allocateSucceeds {
              status := EFI_OUT_OF_RESOURCES;
              break out_free_httpio;
            }
            log := log + [HttpIoRecvResponse(bodyLength)];
            status := fw.recvResponse;
            bodyLength := fw.bodyLength;
            if IsError(status) {
              break out_free_response;
            }
            if fw.statusCode != HTTP_STATUS_200_OK {
              status := EFI_ABORTED;
              break out_free_response;
            }
            log := log + [PrintBody(bodyLength)];
          }
          log := log + [FreePool(ResponseBody)];
        }
        log := log + [HttpIoDestroyIo];
      }
      if !fw.controllersNull {
        log := log + [FreePool(ControllersBuffer)];
      }
    }
  }

  /** A failed LocateHandleBuffer is returned as is; nothing is created and nothing freed. */
  lemma LocateFailure(fw: Firmware)
    requires IsError(fw.locate)
    ensures Behaviour(fw) == Outcome(fw.locate, [LocateHandleBuffer])
  {
  }

  /** No NICs gives EFI_NOT_FOUND: no HttpIo is created and the controllers buffer is still freed. */
  lemma NoControllers(fw: Firmware)
    requires !IsError(fw.locate) && |fw.handles| == 0
    ensures Behaviour(fw).status == EFI_NOT_FOUND
    ensures Behaviour(fw).log == [LocateHandleBuffer] + (if fw.controllersNull then [] else [FreePool(ControllersBuffer)])
  {
  }

  /** The HttpIo is opened on the first controller found, however many there are. */
  lemma FirstControllerUsed(fw: Firmware)
    ensures forall h :: HttpIoCreateIo(h) in Behaviour(fw).log ==> |fw.handles| != 0 && h == fw.handles[0]
  {
  }

  /** HttpIoDestroyIo is called exactly once when HttpIoCreateIo was called and succeeded, and never otherwise. */
  lemma HttpIoDestroyedOnce(fw: Firmware)
    ensures if !IsError(fw.locate) && |fw.handles| != 0 && !IsError(fw.createIo)
            then OccursOnce(Behaviour(fw).log, HttpIoDestroyIo)
            else HttpIoDestroyIo !in Behaviour(fw).log
  {
    var e := Stage(fw);
    if 3 <= e {
      var before := Made(fw, e) + (if 5 <= e then [FreePool(ResponseBody)] else []);
      var after: seq<Call> := if !fw.controllersNull then [FreePool(ControllersBuffer)] else [];
      assert Behaviour(fw).log == before + [HttpIoDestroyIo] + after;
      OnceBetween(before, HttpIoDestroyIo, after);
    }
  }

  /** Allocation failure gives EFI_OUT_OF_RESOURCES and skips the receive, but the HttpIo is still destroyed. */
  lemma AllocationFailure(fw: Firmware)
    requires !IsError(fw.locate) && |fw.handles| != 0 && !IsError(fw.createIo) && !IsError(fw.sendRequest)
    requires !fw.allocateSucceeds
    ensures Behaviour(fw).status == EFI_OUT_OF_RESOURCES
    ensures forall n :: HttpIoRecvResponse(n) !in Behaviour(fw).log
    ensures OccursOnce(Behaviour(fw).log, HttpIoDestroyIo)
  {
    HttpIoDestroyedOnce(fw);
  }

  /** The body buffer is freed exactly once when its allocation succeeded, and never otherwise. */
  lemma BodyFreedOnce(fw: Firmware)
    ensures if AllocatePool(BODY_SIZE) in Behaviour(fw).log && fw.allocateSucceeds
            then OccursOnce(Behaviour(fw).log, FreePool(ResponseBody))
            else FreePool(ResponseBody) !in Behaviour(fw).log
  {
    var e := Stage(fw);
    var log := Behaviour(fw).log;
    if 5 <= e {
      var after := (if 3 <= e then [HttpIoDestroyIo] else [])
        + (if !fw.controllersNull then [FreePool(ControllersBuffer)] else []);
      assert log == Made(fw, e) + [FreePool(ResponseBody)] + after;
      OnceBetween(Made(fw, e), FreePool(ResponseBody), after);
    } else if 4 <= e {
      assert !fw.allocateSucceeds;
    } else {
      assert AllocatePool(BODY_SIZE) !in log;
    }
  }

  /** A response status other than HTTP_STATUS_200_OK gives EFI_ABORTED: the body is not printed but is freed. */
  lemma BadStatusCode(fw: Firmware)
    requires !IsError(fw.locate) && |fw.handles| != 0 && !IsError(fw.createIo) && !IsError(fw.sendRequest)
    requires fw.allocateSucceeds && !IsError(fw.recvResponse)
    requires fw.statusCode != HTTP_STATUS_200_OK
    ensures Behaviour(fw).status == EFI_ABORTED
    ensures forall n :: PrintBody(n) !in Behaviour(fw).log
    ensures OccursOnce(Behaviour(fw).log, FreePool(ResponseBody))
  {
    BodyFreedOnce(fw);
    assert AllocatePool(BODY_SIZE) in Made(fw, Stage(fw));
  }

  /** The buffer received into is the one allocated, of the capacity ResponseData declares. */
  lemma ResponseCapacity(fw: Firmware)
    ensures forall n :: HttpIoRecvResponse(n) in Behaviour(fw).log ==> n == BODY_SIZE && AllocatePool(n) in Behaviour(fw).log
  {
    var e := Stage(fw);
    if 5 <= e {
      assert AllocatePool(BODY_SIZE) in Made(fw, e);
    }
  }

  /** Every check succeeds exactly when the body is printed; the status is then HttpIoRecvResponse's, which is not an error. */
  lemma SuccessPrints(fw: Firmware)
    ensures (forall j :: 0 <= j < |Oks(fw)| ==> Oks(fw)[j]) <==> PrintBody(fw.bodyLength) in Behaviour(fw).log
    ensures PrintBody(fw.bodyLength) in Behaviour(fw).log ==> Behaviour(fw).status == fw.recvResponse
    ensures PrintBody(fw.bodyLength) in Behaviour(fw).log ==> !IsError(Behaviour(fw).status)
  {
    var e := Stage(fw);
    StageIsFirstFailure(fw);
    if e < 7 {
      assert !Oks(fw)[e];
      assert PrintBody(fw.bodyLength) !in Made(fw, e);
    } else {
      assert PrintBody(fw.bodyLength) in Made(fw, e);
    }
  }
}
