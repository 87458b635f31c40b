/**
  BGGP5_Raw_v3.c: the shortest raw-protocol variant. It locates the HTTP
  service binding, creates a child, fetches its EFI_HTTP_PROTOCOL,
  configures it, sends a request, allocates a 0x1000-byte body buffer,
  waits for the response synchronously, prints the body and releases what
  it acquired through the cleanup labels `out_free_response`,
  `out_destroy_child_handle` and `out`.

  The firmware is an oracle: `Firmware` holds the status each call returns.
  `UefiMain` runs the source's control flow (each `goto` is a `break` out of
  a labelled block) and returns the status and the log of calls it made; it
  is proved against `Behaviour`, which says the same thing stage by stage.
*/
module RawV3 {
  import opened Efi

  /** The status each firmware call returns, and the BodyLength the response reports. */
  datatype Firmware = Firmware(
    locateProtocol: Status,
    createChild: Status,
    handleProtocol: Status,
    configure: Status,
    request: Status,
    allocatePool: Status,
    response: Status,
    bodyLength: nat)

  /** The seven calls that can fail, in the order UefiMain makes them. */
  const ACQUIRE: seq<Call> := [LocateProtocol, CreateChild, HandleProtocol, Configure, Request,
                               AllocatePool(BODY_SIZE), Response(BODY_SIZE)]

  /** The status of each of those calls. */
  function Results(fw: Firmware): (r: seq<Status>)
    ensures |r| == |ACQUIRE|
  {
    [fw.locateProtocol, fw.createChild, fw.handleProtocol, fw.configure, fw.request,
     fw.allocatePool, fw.response]
  }

  /** Whether each of those calls succeeds. */
  function Oks(fw: Firmware): (r: seq<bool>)
    ensures |r| == |ACQUIRE|
  {
    [!IsError(fw.locateProtocol), !IsError(fw.createChild), !IsError(fw.handleProtocol),
     !IsError(fw.configure), !IsError(fw.request), !IsError(fw.allocatePool), !IsError(fw.response)]
  }

  /** Index in ACQUIRE of the first call that fails; 7 when all succeed. */
  function Stage(fw: Firmware): nat {
    if IsError(fw.locateProtocol) then 0
    else if IsError(fw.createChild) then 1
    else if IsError(fw.handleProtocol) then 2
    else if IsError(fw.configure) then 3
    else if IsError(fw.request) then 4
    else if IsError(fw.allocatePool) then 5
    else if IsError(fw.response) then 6
    else 7
  }

  /** The stage is where the sequence of calls first fails. */
  lemma StageIsFirstFailure(fw: Firmware)
    ensures Stage(fw) == FirstFailure(Oks(fw))
  {
    FirstFailureUnique(Oks(fw), Stage(fw));
  }

  /**
    The calls UefiMain makes before it starts releasing, when it stops at
    stage `e`: the calls up to and including the first one that fails, and
    the print when none fails.
  */
  function Made(fw: Firmware, e: nat): (r: seq<Call>)
    ensures FreePool(ResponseBody) !in r && DestroyChild !in r
  {
    [LocateProtocol]
    + (if 1 <= e then [CreateChild] else [])
    + (if 2 <= e then [HandleProtocol] else [])
    + (if 3 <= e then [Configure] else [])
    + (if 4 <= e then [Request] else [])
    + (if 5 <= e then [AllocatePool(BODY_SIZE)] else [])
    + (if 6 <= e then [Response(BODY_SIZE)] else [])
    + (if e == 7 then [PrintBody(fw.bodyLength)] else [])
  }

  /**
    What UefiMain does, stage by stage: the calls it makes, then the
    releases of what it acquired, newest first (the body once allocated,
    the child once created). The status is the failing call's, or
    Response's when every call succeeds.
  */
  function Behaviour(fw: Firmware): Outcome {
    var e := Stage(fw);
    Outcome(
      if e < 7 then Results(fw)[e] else fw.response,
      Made(fw, e)
      + (if 6 <= e then [FreePool(ResponseBody)] else [])
      + (if 2 <= e then [DestroyChild] else []))
  }

  method UefiMain(fw: Firmware) returns (status: Status, log: seq<Call>)
    ensures Outcome(status, log) == Behaviour(fw)
  {
    // ResponseMessage.BodyLength as initialised
    var bodyLength := 0x1000;
    status := EFI_SUCCESS;
    label out: {
      label out_destroy_child_handle: {
        label out_free_response: {
          log := [LocateProtocol];
          status := fw.locateProtocol;
          if IsError(status) {
            break out;
          }
          log := log + [CreateChild];
          status := fw.createChild;
          if IsError(status) {
            break out;
          }
          log := log + [HandleProtocol];
          status := fw.handleProtocol;
          if IsError(status) {
            break out_destroy_child_handle;
          }
          log := log + [Configure];
          status := fw.configure;
          if IsError(status) {
            break out_destroy_child_handle;
          }
          log := log + [Request];
          status := fw.request;
          if IsError(status) {
            break out_destroy_child_handle;
          }
          log := log + [AllocatePool(0x1000)];
          status := fw.allocatePool;
          if IsError(status) {
            break out_destroy_child_handle;
          }
          log := log + [Response(bodyLength)];
          status := fw.response;
          if IsError(status) {
            break out_free_response;
          }
          bodyLength := fw.bodyLength;
          log := log + [PrintBody(bodyLength)];
        }
        log := log + [FreePool(ResponseBody)];
      }
      log := log + [DestroyChild];
    }
  }

  /** A call is made exactly when every call before it succeeded. */
  lemma CallMadeIff(fw: Firmware, k: nat)
    requires k < |ACQUIRE|
    ensures ACQUIRE[k] in Behaviour(fw).log <==> forall j :: 0 <= j < k ==> Oks(fw)[j]
  {
    var e := Stage(fw);
    StageIsFirstFailure(fw);
    if k <= e {
      assert ACQUIRE[k] in Made(fw, e);
    } else {
      assert !Oks(fw)[e];
      assert ACQUIRE[k] !in Made(fw, e);
    }
  }

  /** The status is the first failing call's. */
  lemma StatusOfFirstFailure(fw: Firmware, k: nat)
    requires k < |ACQUIRE| && !Oks(fw)[k]
    requires forall j :: 0 <= j < k ==> Oks(fw)[j]
    ensures Behaviour(fw).status == Results(fw)[k]
  {
    StageIsFirstFailure(fw);
    FirstFailureUnique(Oks(fw), k);
  }

  /**
    Every call succeeds exactly when the body is printed, with the length the
    response reports, and exactly when the returned status is not an error.
  */
  lemma SuccessPrints(fw: Firmware)
    ensures (forall k :: 0 <= k < |ACQUIRE| ==> Oks(fw)[k]) <==> PrintBody(fw.bodyLength) in Behaviour(fw).log
    ensures (forall k :: 0 <= k < |ACQUIRE| ==> Oks(fw)[k]) <==> !IsError(Behaviour(fw).status)
  {
    var e := Stage(fw);
    StageIsFirstFailure(fw);
    if e < 7 {
      assert !Oks(fw)[e];
      assert IsError(Results(fw)[e]);
      assert PrintBody(fw.bodyLength) !in Made(fw, e);
    } else {
      assert Oks(fw)[6];
      assert PrintBody(fw.bodyLength) in Made(fw, e);
    }
  }

  /**
    The child is destroyed exactly when it was created: then as the last
    call and nowhere before it.
  */
  lemma ChildDestroyedOnce(fw: Firmware)
    ensures var log := Behaviour(fw).log;
            if Oks(fw)[0] && Oks(fw)[1] then
              log[|log| - 1] == DestroyChild && DestroyChild !in log[..|log| - 1]
            else
              DestroyChild !in log
  {
    var e := Stage(fw);
    var log := Behaviour(fw).log;
    var freed := Made(fw, e) + (if 6 <= e then [FreePool(ResponseBody)] else []);
    assert Oks(fw)[0] && Oks(fw)[1] <==> 2 <= e;
    if 2 <= e {
      assert log == freed + [DestroyChild];
      assert log[..|log| - 1] == freed;
    } else {
      assert log == freed;
    }
  }

  /**
    The body is freed exactly when its allocation succeeded: then just
    before the child is destroyed and nowhere else.
  */
  lemma BodyFreedOnce(fw: Firmware)
    ensures var log := Behaviour(fw).log;
            if AllocatePool(BODY_SIZE) in log && Oks(fw)[5] then
              |log| >= 2 && log[|log| - 2] == FreePool(ResponseBody) && log[|log| - 1] == DestroyChild
              && FreePool(ResponseBody) !in log[..|log| - 2]
            else
              FreePool(ResponseBody) !in log
  {
    var e := Stage(fw);
    var log := Behaviour(fw).log;
    if 6 <= e {
      assert log == Made(fw, e) + [FreePool(ResponseBody)] + [DestroyChild];
      assert log[..|log| - 2] == Made(fw, e);
      assert AllocatePool(BODY_SIZE) in Made(fw, e);
    } else if 2 <= e {
      assert log == Made(fw, e) + [DestroyChild];
      assert !(AllocatePool(BODY_SIZE) in Made(fw, e) && Oks(fw)[5]);
    } else {
      assert log == Made(fw, e);
    }
  }

  /** The buffer Response fills is the one allocated, of the capacity ResponseMessage declares. */
  lemma ResponseCapacity(fw: Firmware)
    ensures forall n :: Response(n) in Behaviour(fw).log ==> n == BODY_SIZE && AllocatePool(n) in Behaviour(fw).log
  {
    var e := Stage(fw);
    if 6 <= e {
      assert AllocatePool(BODY_SIZE) in Made(fw, e);
    }
  }
}
