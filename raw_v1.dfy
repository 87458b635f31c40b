/**
  BGGP5_Raw_v1.c: the raw-protocol variant with asynchronous tokens. It
  locates the network controllers, opens the HTTP service binding on the
  first one, creates a child and fetches its EFI_HTTP_PROTOCOL, configures
  it, sends the request with a notify event and polls until the request
  callback has run or five clock seconds have gone by; then it allocates the
  0x1000-byte body buffer, asks for the response with a second event and
  polls for it the same way, prints the body, and releases the body buffer
  and the controllers buffer through the cleanup labels `out_free_response`,
  `out_free_controllers` and `out`.

  The firmware is an oracle: `Firmware` holds what each call returns and,
  for each wait loop, a finite trace of what each pass observes. The two
  static completion flags live in a `Flags` object that only the callbacks
  set, and the callbacks run only inside `Poll`. `UefiMain` runs the source's
  control flow and is proved against `Run`.
*/
module RawV1 {
  import opened Efi

  /** REQUEST_WAIT_MAX and RESPONSE_WAIT_MAX: clock seconds each wait loop allows. */
  const REQUEST_WAIT_MAX: nat := 5
  const RESPONSE_WAIT_MAX: nat := 5

  /** The static globals gRequestCallbackComplete and gResponseCallbackComplete. */
  class Flags {
    var requestCallbackComplete: bool
    var responseCallbackComplete: bool

    /** Both flags start FALSE. */
    constructor ()
      ensures !requestCallbackComplete && !responseCallbackComplete
    {
      requestCallbackComplete := false;
      responseCallbackComplete := false;
    }

    /** The flag belonging to `token`. */
    predicate Complete(token: Token)
      reads this
    {
      if token == RequestToken then requestCallbackComplete else responseCallbackComplete
    }

    /** RequestCallback: the request has been sent. */
    method RequestCallback()
      modifies this
      ensures requestCallbackComplete
      ensures responseCallbackComplete == old(responseCallbackComplete)
    {
      requestCallbackComplete := true;
    }

    /** ResponseCallback: the response has been received. */
    method ResponseCallback()
      modifies this
      ensures responseCallbackComplete
      ensures requestCallbackComplete == old(requestCallbackComplete)
    {
      responseCallbackComplete := true;
    }
  }

  /**
    HttpProtocol->Poll while `token` is outstanding: when the token's event
    is signalled during the poll (`fires`), its notify function runs. This is
    the only place where the model lets a callback run.
  */
  method PollHttp(flags: Flags, token: Token, fires: bool)
    modifies flags
    ensures flags.requestCallbackComplete
            == (old(flags.requestCallbackComplete) || (fires && token == RequestToken))
    ensures flags.responseCallbackComplete
            == (old(flags.responseCallbackComplete) || (fires && token == ResponseToken))
  {
    if fires {
      if token == RequestToken {
        flags.RequestCallback();
      } else {
        flags.ResponseCallback();
      }
    }
  }

  /** What one pass of a wait loop observes: whether Poll signals the event, and what GetTime(&Cur) returns. */
  datatype Tick = Tick(fires: bool, time: Time)

  /**
    GetTime's answer moves the timer on: it succeeded and its Second differs
    from Base's.
  */
  predicate Advances(second: nat, time: Time) {
    !IsError(time.status) && time.second != second
  }

  /** Base.Second after a pass: Cur's when the timer moved on, unchanged otherwise. */
  function NextBase(second: nat, time: Time): nat {
    if Advances(second, time) then time.second else second
  }

  /** How a wait loop ends: its flag is set, its timer reached the maximum, or the trace ran out while it spun. */
  datatype WaitEnd = Completed | TimedOut | Spinning

  /** How a wait loop ends and the calls it made. */
  datatype Waited = Waited(end: WaitEnd, calls: seq<Call>)

  /**
    The wait loop from a pass with Base.Second `second` and Timer `timer`:
    stop once the timer reaches `max`; otherwise Poll, stop if the event was
    signalled, else GetTime and move the timer on when the second changed.
  */
  function Wait(second: nat, ticks: seq<Tick>, timer: nat, max: nat): (w: Waited)
    ensures forall c :: c in w.calls ==> c == Poll || c == GetTime
    decreases |ticks|
  {
    if timer >= max then Waited(TimedOut, [])
    else if ticks == [] then Waited(Spinning, [])
    else if ticks[0].fires then Waited(Completed, [Poll])
    else
      var t := ticks[0].time;
      var rest := Wait(NextBase(second, t), ticks[1..], if Advances(second, t) then timer + 1 else timer, max);
      Waited(rest.end, [Poll, GetTime] + rest.calls)
  }

  /** How many passes of the trace move the timer on, from Base.Second `second`. */
  function Changes(second: nat, ticks: seq<Tick>): nat
    decreases |ticks|
  {
    if ticks == [] then 0
    else (if Advances(second, ticks[0].time) then 1 else 0) + Changes(NextBase(second, ticks[0].time), ticks[1..])
  }

  /** Base.Second after the passes of `ticks`, from Base.Second `second`. */
  function BaseAfter(second: nat, ticks: seq<Tick>): nat
    decreases |ticks|
  {
    if ticks == [] then second else BaseAfter(NextBase(second, ticks[0].time), ticks[1..])
  }

  /**
    Pass `k` moves the timer on by one exactly when its GetTime succeeded
    with a Second different from Base's after the passes before it, and
    leaves it unchanged otherwise; Base then becomes Cur.
  */
  lemma {:induction false} ChangesStep(second: nat, ticks: seq<Tick>, k: nat)
    requires k < |ticks|
    ensures var base := BaseAfter(second, ticks[..k]);
            Changes(second, ticks[..k + 1]) == Changes(second, ticks[..k]) + (if Advances(base, ticks[k].time) then 1 else 0)
    ensures var base := BaseAfter(second, ticks[..k]);
            BaseAfter(second, ticks[..k + 1]) == if Advances(base, ticks[k].time) then ticks[k].time.second else base
    decreases k
  {
    if k == 0 {
      assert ticks[..1][1..] == [];
      assert ticks[..0] == [];
    } else {
      var t := ticks[0].time;
      ChangesStep(NextBase(second, t), ticks[1..], k - 1);
      assert ticks[..k + 1][1..] == ticks[1..][..k];
      assert ticks[..k][1..] == ticks[1..][..k - 1];
      assert ticks[1..][k - 1] == ticks[k];
    }
  }

  /** Every pass calls Poll before the flag is tested; GetTime follows only when the flag was unset. */
  lemma {:induction false} PollBeforeTest(second: nat, ticks: seq<Tick>, timer: nat, max: nat)
    ensures var w := Wait(second, ticks, timer, max);
            forall j :: 0 <= j < |w.calls| ==> w.calls[j] == if j % 2 == 0 then Poll else GetTime
    ensures var w := Wait(second, ticks, timer, max);
            w.end == Completed <==> |w.calls| % 2 == 1
    decreases |ticks|
  {
    if timer < max && ticks != [] && !ticks[0].fires {
      var t := ticks[0].time;
      var rest := Wait(NextBase(second, t), ticks[1..], if Advances(second, t) then timer + 1 else timer, max);
      PollBeforeTest(NextBase(second, t), ticks[1..], if Advances(second, t) then timer + 1 else timer, max);
      var calls := [Poll, GetTime] + rest.calls;
      forall j | 0 <= j < |calls|
        ensures calls[j] == if j % 2 == 0 then Poll else GetTime
      {
        if 2 <= j {
          assert calls[j] == rest.calls[j - 2];
        }
      }
    }
  }

  /**
    Why a wait loop stops, over the `k` passes that ended with GetTime: none
    of them signalled the event; it completes only when the next pass
    signals it before the timer reached the maximum; it times out exactly
    when those passes moved the timer to the maximum; and it spins only when
    the trace ran out first.
  */
  lemma {:induction false} WaitStops(second: nat, ticks: seq<Tick>, timer: nat, max: nat)
    requires timer <= max
    ensures var w := Wait(second, ticks, timer, max);
            var k := |w.calls| / 2;
            && k <= |ticks|
            && (forall j :: 0 <= j < k ==> !ticks[j].fires)
            && (w.end == Completed ==> k < |ticks| && ticks[k].fires && timer + Changes(second, ticks[..k]) < max)
            && (w.end == TimedOut ==> timer + Changes(second, ticks[..k]) == max)
            && (w.end == Spinning ==> k == |ticks| && timer + Changes(second, ticks) < max)
    decreases |ticks|
  {
    var w := Wait(second, ticks, timer, max);
    if timer >= max {
      assert ticks[..0] == [];
    } else if ticks == [] {
    } else if ticks[0].fires {
      assert ticks[..0] == [];
    } else {
      var t := ticks[0].time;
      var timer' := if Advances(second, t) then timer + 1 else timer;
      var rest := Wait(NextBase(second, t), ticks[1..], timer', max);
      WaitStops(NextBase(second, t), ticks[1..], timer', max);
      var k := |w.calls| / 2;
      assert k == |rest.calls| / 2 + 1;
      assert ticks[..k][0] == ticks[0];
      assert ticks[..k][1..] == ticks[1..][..k - 1];
      assert Changes(second, ticks[..k]) == (if Advances(second, t) then 1 else 0) + Changes(NextBase(second, t), ticks[1..][..k - 1]);
      forall j | 0 <= j < k
        ensures !ticks[j].fires
      {
        if 0 < j {
          assert ticks[j] == ticks[1..][j - 1];
        }
      }
    }
  }

  /** One pass of the wait loop in which the event is not signalled, after the calls `before`. */
  lemma WaitPass(second: nat, ticks: seq<Tick>, i: nat, timer: nat, max: nat, before: seq<Call>)
    requires i < |ticks| && timer < max && !ticks[i].fires
    ensures var t := ticks[i].time;
            var rest := Wait(NextBase(second, t), ticks[i + 1..], if Advances(second, t) then timer + 1 else timer, max);
            && Wait(second, ticks[i..], timer, max).end == rest.end
            && before + Wait(second, ticks[i..], timer, max).calls == before + [Poll] + [GetTime] + rest.calls
  {
    assert ticks[i..][1..] == ticks[i + 1..];
    var t := ticks[i].time;
    var rest := Wait(NextBase(second, t), ticks[i + 1..], if Advances(second, t) then timer + 1 else timer, max);
    assert before + ([Poll, GetTime] + rest.calls) == before + [Poll] + [GetTime] + rest.calls;
  }

  /**
    The wait loop of UefiMain (the `for (Timer = 0; Timer < max; )` loop),
    over the trace `ticks` it observes, with `base` the EFI_TIME read into
    Base before it.
  */
  method WaitFor(flags: Flags, token: Token, base: Time, ticks: seq<Tick>, max: nat) returns (w: Waited)
    requires !flags.Complete(token)
    modifies flags
    ensures w == Wait(base.second, ticks, 0, max)
    ensures flags.Complete(token) <==> w.end == Completed
    ensures flags.Complete(if token == RequestToken then ResponseToken else RequestToken)
            == old(flags.Complete(if token == RequestToken then ResponseToken else RequestToken))
  {
    var other := if token == RequestToken then ResponseToken else RequestToken;
    var otherFlag := flags.Complete(other);
    var timer := 0;
    var second := base.second;
    var i := 0;
    var calls: seq<Call> := [];
    while timer < max && i < |ticks|
      invariant i <= |ticks|
      invariant !flags.Complete(token)
      invariant flags.Complete(other) == otherFlag
      invariant Wait(base.second, ticks, 0, max)
                == Waited(Wait(second, ticks[i..], timer, max).end, calls + Wait(second, ticks[i..], timer, max).calls)
    {
      calls := calls + [Poll];
      PollHttp(flags, token, ticks[i].fires);
      if flags.Complete(token) {
        return Waited(Completed, calls);
      }
      WaitPass(second, ticks, i, timer, max, calls[..|calls| - 1]);
      calls := calls + [GetTime];
      var cur := ticks[i].time;
      if !IsError(cur.status) && cur.second != second {
        second := cur.second;
        timer := timer + 1;
      }
      i := i + 1;
    }
    assert calls + [] == calls;
    if timer >= max {
      w := Waited(TimedOut, calls);
    } else {
      w := Waited(Spinning, calls);
    }
  }

  /**
    What the firmware calls return: LocateHandleBuffer's status, the
    handles it finds and whether it leaves the Controllers pointer NULL
    (tested only after it succeeded); the statuses of the calls that can fail, in order; the two GetTime(&Base)
    answers and the traces the two wait loops observe; what the two Cancel
    calls return; and the BodyLength the response reports.
  */
  datatype Firmware = Firmware(
    locate: Status,
    handles: seq<Handle>,
    controllersNull: bool,
    openBinding: Status,
    createChild: Status,
    openHttp: Status,
    configure: Status,
    requestEvent: Status,
    request: Status,
    time1: Time,
    requestWait: seq<Tick>,
    cancelRequest: Status,
    allocatePool: Status,
    responseEvent: Status,
    response: Status,
    time2: Time,
    responseWait: seq<Tick>,
    cancelResponse: Status,
    bodyLength: nat)

  /** How a run of UefiMain ends: it returns, or one of its wait loops is still spinning when its trace runs out. */
  datatype Ending = Returned(status: Status, log: seq<Call>) | Waiting(log: seq<Call>)

  /**
    Index of the first of the nine checks before the request wait that
    fails (9 when all succeed): the locate status, a non-zero NIC count,
    the two OpenProtocol calls around CreateChild, Configure, the request
    CreateEvent, Request and the first GetTime.
  */
  function Setup(fw: Firmware): nat {
    if IsError(fw.locate) then 0
    else if |fw.handles| == 0 then 1
    else if IsError(fw.openBinding) then 2
    else if IsError(fw.createChild) then 3
    else if IsError(fw.openHttp) then 4
    else if IsError(fw.configure) then 5
    else if IsError(fw.requestEvent) then 6
    else if IsError(fw.request) then 7
    else if IsError(fw.time1.status) then 8
    else 9
  }

  /** The status UefiMain returns when setup stops at check `e`. */
  function SetupStatus(fw: Firmware, e: nat): Status {
    match e
    case 0 => fw.locate
    case 1 => EFI_NOT_FOUND
    case 2 => fw.openBinding
    case 3 => fw.createChild
    case 4 => fw.openHttp
    case 5 => fw.configure
    case 6 => fw.requestEvent
    case 7 => fw.request
    case _ => fw.time1.status
  }

  /** The calls made before the request wait. */
  predicate SetupCall(c: Call) {
    || c.LocateHandleBuffer? || c.OpenServiceBinding? || c.CreateChild? || c.OpenHttp?
    || c.Configure? || c == CreateEvent(RequestToken) || c.Request? || c.GetTime?
  }

  /** The calls UefiMain makes before the request wait, when setup stops at check `e`. */
  function Made(fw: Firmware, e: nat): (r: seq<Call>)
    requires 2 <= e ==> |fw.handles| != 0
    ensures forall c :: c in r ==> SetupCall(c)
  {
    [LocateHandleBuffer]
    + (if 2 <= e then [OpenServiceBinding(fw.handles[0])] else [])
    + (if 3 <= e then [CreateChild] else [])
    + (if 4 <= e then [OpenHttp(fw.handles[0])] else [])
    + (if 5 <= e then [Configure] else [])
    + (if 6 <= e then [CreateEvent(RequestToken)] else [])
    + (if 7 <= e then [Request] else [])
    + (if 8 <= e then [GetTime] else [])
  }

  /** The request wait loop, from the first GetTime's Second. */
  function RequestWait(fw: Firmware): Waited {
    Wait(fw.time1.second, fw.requestWait, 0, REQUEST_WAIT_MAX)
  }

  /** The response wait loop, from the second GetTime's Second. */
  function ResponseWait(fw: Firmware): Waited {
    Wait(fw.time2.second, fw.responseWait, 0, RESPONSE_WAIT_MAX)
  }

  /** Setup succeeded and the request callback ran within the wait. */
  predicate RequestSent(fw: Firmware) {
    Setup(fw) == 9 && RequestWait(fw).end == Completed
  }

  /**
    Index of the first of the four checks after the request wait that fails
    (4 when all succeed): AllocatePool, the response CreateEvent, Response
    and the second GetTime.
  */
  function Fetch(fw: Firmware): nat {
    if IsError(fw.allocatePool) then 0
    else if IsError(fw.responseEvent) then 1
    else if IsError(fw.response) then 2
    else if IsError(fw.time2.status) then 3
    else 4
  }

  /** The status UefiMain returns when the fetch stops at check `e`. */
  function FetchStatus(fw: Firmware, e: nat): Status {
    match e
    case 0 => fw.allocatePool
    case 1 => fw.responseEvent
    case 2 => fw.response
    case _ => fw.time2.status
  }

  /** The calls made after the request wait, GetTime apart. */
  predicate FetchCall(c: Call) {
    c.AllocatePool? || c == CreateEvent(ResponseToken) || c.Response? || c.PrintBody?
    || c == Cancel(ResponseToken)
  }

  /** The calls UefiMain makes after the request wait and before the response wait, when the fetch stops at check `e`. */
  function Asked(e: nat): (r: seq<Call>)
    ensures forall c :: c in r ==> c == AllocatePool(BODY_SIZE) || c == CreateEvent(ResponseToken) || c == Response(BODY_SIZE) || c == GetTime
  {
    [AllocatePool(BODY_SIZE)]
    + (if 1 <= e then [CreateEvent(ResponseToken)] else [])
    + (if 2 <= e then [Response(BODY_SIZE)] else [])
    + (if 3 <= e then [GetTime] else [])
  }

  /** The controllers buffer release at `out_free_controllers`. */
  function FreeControllers(fw: Firmware): seq<Call> {
    if fw.controllersNull then [] else [FreePool(ControllersBuffer)]
  }

  /** The cleanup labels of UefiMain. */
  datatype Label = Out | OutFreeControllers | OutFreeResponse

  /** Where a phase of UefiMain leaves off: on to the next phase, to a cleanup label, or stuck in a wait loop. */
  datatype Exit = Next | Goto(target: Label) | Stuck

  /** The status a phase leaves behind, the calls it made and where it leaves off. */
  datatype Phase = Phase(status: Status, log: seq<Call>, exit: Exit)

  /**
    The first phase of UefiMain, up to the request wait and its Cancel: a
    failed LocateHandleBuffer goes straight to `out`, any later failure and
    the request timeout to `out_free_controllers`.
  */
  function Requested(fw: Firmware): (p: Phase)
    ensures p.exit == Goto(Out) <==> IsError(fw.locate)
    ensures p.exit == Next <==> RequestSent(fw)
  {
    var e := Setup(fw);
    if e < 9 then
      Phase(SetupStatus(fw, e), Made(fw, e), Goto(if e == 0 then Out else OutFreeControllers))
    else
      var sent := Made(fw, 9) + RequestWait(fw).calls;
      match RequestWait(fw).end
      case Spinning => Phase(fw.time1.status, sent, Stuck)
      case TimedOut => Phase(EFI_TIMEOUT, sent + [Cancel(RequestToken)], Goto(OutFreeControllers))
      case Completed => Phase(fw.time1.status, sent, Next)
  }

  /**
    The second phase: a failed AllocatePool or response CreateEvent goes to
    `out_free_controllers`; a failed Response or GetTime and the response
    timeout go to `out_free_response`; success prints the body and falls
    through to the same label.
  */
  function Fetched(fw: Firmware): (p: Phase)
    ensures p.exit != Goto(Out)
    ensures p.exit == Goto(OutFreeControllers) <==> Fetch(fw) < 2
    ensures Response(BODY_SIZE) in p.log <==> 2 <= Fetch(fw)
  {
    var e := Fetch(fw);
    if e < 4 then
      Phase(FetchStatus(fw, e), Asked(e), Goto(if e < 2 then OutFreeControllers else OutFreeResponse))
    else
      var got := Asked(4) + ResponseWait(fw).calls;
      match ResponseWait(fw).end
      case Spinning => Phase(fw.time2.status, got, Stuck)
      case TimedOut => Phase(EFI_TIMEOUT, got + [Cancel(ResponseToken)], Goto(OutFreeResponse))
      case Completed => Phase(fw.time2.status, got + [PrintBody(fw.bodyLength)], Next)
  }

  /** Where UefiMain leaves its two phases. */
  function Phases(fw: Firmware): Phase {
    Join(Requested(fw), Fetched(fw))
  }

  /** The first phase, followed by the second when the first gets through. */
  function Join(first: Phase, second: Phase): Phase {
    if first.exit == Next then Phase(second.status, first.log + second.log, second.exit) else first
  }

  /**
    The cleanup labels: `out_free_response` frees the body buffer and falls
    into `out_free_controllers`, which frees the controllers buffer unless
    its pointer is NULL and falls into `out`, which returns the status.
  */
  function Cleanup(fw: Firmware, p: Phase): Ending {
    match p.exit
    case Stuck => Waiting(p.log)
    case Goto(Out) => Returned(p.status, p.log)
    case _ => Returned(p.status,
                       p.log + (if p.exit == Goto(OutFreeControllers) then [] else [FreePool(ResponseBody)])
                       + FreeControllers(fw))
  }

  /** What UefiMain does: its two phases, then the cleanup labels. */
  function Run(fw: Firmware): Ending {
    Cleanup(fw, Phases(fw))
  }

  /** UefiMain's code from LocateHandleBuffer to the request timeout (its first phase). */
  method SendRequest(fw: Firmware, flags: Flags) returns (p: Phase)
    requires !flags.requestCallbackComplete && !flags.responseCallbackComplete
    modifies flags
    ensures p == Requested(fw)
    ensures flags.requestCallbackComplete <==> p.exit == Next
    ensures !flags.responseCallbackComplete
  {
    var status := EFI_SUCCESS;
    var log := [LocateHandleBuffer];
    status := fw.locate;
    if IsError(status) || |fw.handles| == 0 {
      if IsError(status) {
        return Phase(status, log, Goto(Out));
      }
      status := EFI_NOT_FOUND;
      return Phase(status, log, Goto(OutFreeControllers));
    }
    log := log + [OpenServiceBinding(fw.handles[0])];
    status := fw.openBinding;
    if IsError(status) {
      return Phase(status, log, Goto(OutFreeControllers));
    }
    log := log + [CreateChild];
    status := fw.createChild;
    if IsError(status) {
      return Phase(status, log, Goto(OutFreeControllers));
    }
    log := log + [OpenHttp(fw.handles[0])];
    status := fw.openHttp;
    if IsError(status) {
      return Phase(status, log, Goto(OutFreeControllers));
    }
    log := log + [Configure];
    status := fw.configure;
    if IsError(status) {
      return Phase(status, log, Goto(OutFreeControllers));
    }
    log := log + [CreateEvent(RequestToken)];
    status := fw.requestEvent;
    if IsError(status) {
      return Phase(status, log, Goto(OutFreeControllers));
    }
    log := log + [Request];
    status := fw.request;
    if IsError(status) {
      return Phase(status, log, Goto(OutFreeControllers));
    }
    log := log + [GetTime];
    status := fw.time1.status;
    if IsError(status) {
      return Phase(status, log, Goto(OutFreeControllers));
    }
    var wait := WaitFor(flags, RequestToken, fw.time1, fw.requestWait, REQUEST_WAIT_MAX);
    log := log + wait.calls;
    if wait.end == Spinning {
      return Phase(status, log, Stuck);
    }
    if !flags.requestCallbackComplete {
      log := log + [Cancel(RequestToken)];
      status := fw.cancelRequest;
      status := EFI_TIMEOUT;
      return Phase(status, log, Goto(OutFreeControllers));
    }
    p := Phase(status, log, Next);
  }

  /** UefiMain's code from AllocatePool to the print of the body (its second phase). */
  method ReceiveResponse(fw: Firmware, flags: Flags) returns (p: Phase)
    requires !flags.responseCallbackComplete
    modifies flags
    ensures p == Fetched(fw)
    ensures flags.responseCallbackComplete <==> p.exit == Next
    ensures flags.requestCallbackComplete == old(flags.requestCallbackComplete)
  {
    // ResponseMessage.BodyLength as initialised
    var bodyLength := 0x1000;
    var calls := [AllocatePool(0x1000)];
    var status := fw.allocatePool;
    if IsError(status) {
      return Phase(status, calls, Goto(OutFreeControllers));
    }
    calls := calls + [CreateEvent(ResponseToken)];
    status := fw.responseEvent;
    if IsError(status) {
      return Phase(status, calls, Goto(OutFreeControllers));
    }
    calls := calls + [Response(bodyLength)];
    status := fw.response;
    if IsError(status) {
      return Phase(status, calls, Goto(OutFreeResponse));
    }
    calls := calls + [GetTime];
    status := fw.time2.status;
    if IsError(status) {
      return Phase(status, calls, Goto(OutFreeResponse));
    }
    var wait := WaitFor(flags, ResponseToken, fw.time2, fw.responseWait, RESPONSE_WAIT_MAX);
    calls := calls + wait.calls;
    if wait.end == Spinning {
      return Phase(status, calls, Stuck);
    }
    if !flags.responseCallbackComplete {
      calls := calls + [Cancel(ResponseToken)];
      status := fw.cancelResponse;
      status := EFI_TIMEOUT;
      return Phase(status, calls, Goto(OutFreeResponse));
    }
    bodyLength := fw.bodyLength;
    calls := calls + [PrintBody(bodyLength)];
    p := Phase(status, calls, Next);
  }

  /**
    UefiMain: the two phases, each `goto` of theirs a `break` to its label,
    then the cleanup labels.
  */
  method UefiMain(fw: Firmware) returns (r: Ending)
    ensures r == Run(fw)
  {
    var flags := new Flags();
    var phase: Phase;
    label out: {
      label out_free_controllers: {
        label out_free_response: {
          phase := SendRequest(fw, flags);
          if phase.exit == Stuck {
            return Waiting(phase.log);
          } else if phase.exit == Goto(Out) {
            break out;
          } else if phase.exit == Goto(OutFreeControllers) {
            break out_free_controllers;
          }
          var second := ReceiveResponse(fw, flags);
          phase := second.(log := phase.log + second.log);
          if phase.exit == Stuck {
            return Waiting(phase.log);
          } else if phase.exit == Goto(OutFreeControllers) {
            break out_free_controllers;
          }
        }
        phase := phase.(log := phase.log + [FreePool(ResponseBody)]);
      }
      if !fw.controllersNull {
        phase := phase.(log := phase.log + [FreePool(ControllersBuffer)]);
      }
    }
    r := Returned(phase.status, phase.log);
  }

  /** A failed LocateHandleBuffer is returned as is; nothing else is called, nothing freed. */
  lemma LocateFailure(fw: Firmware)
    requires IsError(fw.locate)
    ensures Run(fw) == Returned(fw.locate, [LocateHandleBuffer])
  {
  }

  /** No NICs gives EFI_NOT_FOUND; the controllers buffer is still freed and nothing else is called. */
  lemma NoControllers(fw: Firmware)
    requires !IsError(fw.locate) && |fw.handles| == 0
    ensures Run(fw) == Returned(EFI_NOT_FOUND, [LocateHandleBuffer] + FreeControllers(fw))
  {
  }

  /** The first phase makes only its own calls, and cancels the request exactly when the request wait timed out. */
  lemma RequestedCalls(fw: Firmware)
    ensures forall c :: c in Requested(fw).log ==> SetupCall(c) || c == Poll || c == Cancel(RequestToken)
    ensures Cancel(RequestToken) in Requested(fw).log <==> Setup(fw) == 9 && RequestWait(fw).end == TimedOut
    ensures Cancel(RequestToken) in Requested(fw).log ==> Requested(fw).status == EFI_TIMEOUT
  {
    var e := Setup(fw);
    if e < 9 {
      assert forall c :: c in Requested(fw).log ==> SetupCall(c);
    } else {
      var sent := Made(fw, 9) + RequestWait(fw).calls;
      assert forall c :: c in sent ==> SetupCall(c) || c == Poll;
    }
  }

  /** The second phase makes only its own calls. */
  lemma FetchedCalls(fw: Firmware)
    ensures forall c :: c in Fetched(fw).log ==> FetchCall(c) || c == Poll || c == GetTime
  {
    if Fetch(fw) == 4 {
      assert forall c :: c in Asked(4) + ResponseWait(fw).calls ==> FetchCall(c) || c == Poll || c == GetTime;
    }
  }

  /** The second phase cancels the response exactly when the response wait timed out. */
  lemma FetchedCancel(fw: Firmware)
    ensures Cancel(ResponseToken) in Fetched(fw).log <==> Fetch(fw) == 4 && ResponseWait(fw).end == TimedOut
    ensures Cancel(ResponseToken) in Fetched(fw).log ==> Fetched(fw).status == EFI_TIMEOUT
  {
    if Fetch(fw) == 4 {
      assert Cancel(ResponseToken) !in Asked(4) + ResponseWait(fw).calls;
    }
  }

  /** The second phase prints the body, with the length the response reports, exactly when the response was received. */
  lemma FetchedPrint(fw: Firmware)
    ensures forall n :: PrintBody(n) in Fetched(fw).log <==> Fetch(fw) == 4 && ResponseWait(fw).end == Completed && n == fw.bodyLength
  {
    if Fetch(fw) == 4 {
      assert forall n :: PrintBody(n) !in Asked(4) + ResponseWait(fw).calls;
    }
  }

  /** The body buffer is allocated with the capacity ResponseMessage declares, and Response is given that buffer. */
  lemma FetchedSizes(fw: Firmware)
    ensures forall n :: AllocatePool(n) in Fetched(fw).log ==> n == BODY_SIZE
    ensures forall n :: Response(n) in Fetched(fw).log ==> n == BODY_SIZE && AllocatePool(n) in Fetched(fw).log
  {
    var e := Fetch(fw);
    assert AllocatePool(BODY_SIZE) in Asked(e);
    if e == 4 {
      assert forall n :: AllocatePool(n) in Asked(4) + ResponseWait(fw).calls ==> n == BODY_SIZE;
      assert forall n :: Response(n) in Asked(4) + ResponseWait(fw).calls ==> n == BODY_SIZE;
    }
  }

  /** A call in the first phase's log is one of its own. */
  lemma RequestedMakes(fw: Firmware, c: Call)
    ensures c in Requested(fw).log ==> SetupCall(c) || c == Poll || c == Cancel(RequestToken)
  {
    RequestedCalls(fw);
  }

  /** A call in the second phase's log is one of its own. */
  lemma FetchedMakes(fw: Firmware, c: Call)
    ensures c in Fetched(fw).log ==> FetchCall(c) || c == Poll || c == GetTime
  {
    FetchedCalls(fw);
  }

  /** The releases the cleanup labels make after the phases. */
  function Released(fw: Firmware, p: Phase): (r: seq<Call>)
    ensures forall c :: c in r ==> c.FreePool?
  {
    match p.exit
    case Stuck => []
    case Goto(Out) => []
    case Goto(OutFreeControllers) => FreeControllers(fw)
    case _ => [FreePool(ResponseBody)] + FreeControllers(fw)
  }

  /** The cleanup labels append the releases to the phases' calls and return the status the phases leave. */
  lemma CleanupLog(fw: Firmware, p: Phase)
    ensures Cleanup(fw, p).log == p.log + Released(fw, p)
    ensures Cleanup(fw, p).Returned? <==> p.exit != Stuck
    ensures Cleanup(fw, p).Returned? ==> Cleanup(fw, p).status == p.status
  {
    if p.exit == Goto(OutFreeResponse) || p.exit == Next {
      assert p.log + [FreePool(ResponseBody)] + FreeControllers(fw) == p.log + ([FreePool(ResponseBody)] + FreeControllers(fw));
    }
  }

  /** A call is made by the phases when the first phase made it, or the second phase ran and made it. */
  lemma InPhases(fw: Firmware, c: Call)
    ensures c in Phases(fw).log <==> c in Requested(fw).log || (RequestSent(fw) && c in Fetched(fw).log)
  {
  }

  /** A call is in the run's log when one of the phases that ran made it or the cleanup labels did. */
  lemma InRun(fw: Firmware, c: Call)
    ensures c in Run(fw).log
            <==> c in Requested(fw).log || (RequestSent(fw) && c in Fetched(fw).log) || c in Released(fw, Phases(fw))
  {
    CleanupLog(fw, Phases(fw));
  }

  /**
    Once LocateHandleBuffer succeeded, every exit frees the controllers
    buffer (unless its pointer is NULL), as the last call and only there;
    when it failed the buffer is not touched.
  */
  lemma ControllersFreed(fw: Firmware)
    requires Run(fw).Returned?
    ensures var log := Run(fw).log;
            if !IsError(fw.locate) && !fw.controllersNull then
              log[|log| - 1] == FreePool(ControllersBuffer) && FreePool(ControllersBuffer) !in log[..|log| - 1]
            else
              FreePool(ControllersBuffer) !in log
  {
    var p := Phases(fw);
    InPhases(fw, FreePool(ControllersBuffer));
    RequestedMakes(fw, FreePool(ControllersBuffer));
    FetchedMakes(fw, FreePool(ControllersBuffer));
    CleanupLog(fw, p);
    if p.exit != Goto(Out) {
      var released := p.log + (if p.exit == Goto(OutFreeControllers) then [] else [FreePool(ResponseBody)]);
      assert Run(fw).log == released + FreeControllers(fw);
      if !fw.controllersNull {
        LastOnly(released, FreePool(ControllersBuffer));
      }
    }
  }

  /** The response was received within the wait: every check succeeded. */
  predicate Received(fw: Firmware) {
    RequestSent(fw) && Fetch(fw) == 4 && ResponseWait(fw).end == Completed
  }

  /** Nothing of the response side is called unless the request was sent in time. */
  lemma FetchOnlyAfterSent(fw: Firmware)
    ensures forall c :: c in Run(fw).log && FetchCall(c) ==> RequestSent(fw)
  {
    forall c | c in Run(fw).log && FetchCall(c)
      ensures RequestSent(fw)
    {
      InRun(fw, c);
      RequestedMakes(fw, c);
    }
  }

  /**
    A request that is not sent in time is cancelled once and the run returns
    EFI_TIMEOUT, with nothing of the response side called.
  */
  lemma RequestTimeout(fw: Firmware)
    requires Setup(fw) == 9 && RequestWait(fw).end == TimedOut
    ensures Run(fw).Returned? && Run(fw).status == EFI_TIMEOUT
    ensures OccursOnce(Run(fw).log, Cancel(RequestToken))
    ensures forall c :: c in Run(fw).log ==> !FetchCall(c)
  {
    var sent := Made(fw, 9) + RequestWait(fw).calls;
    var ctl := FreeControllers(fw);
    assert Phases(fw) == Phase(EFI_TIMEOUT, sent + [Cancel(RequestToken)], Goto(OutFreeControllers));
    assert Run(fw) == Returned(EFI_TIMEOUT, sent + [Cancel(RequestToken)] + ctl);
    OnceBetween(sent, Cancel(RequestToken), ctl);
    FetchOnlyAfterSent(fw);
  }

  /**
    The body is printed, with the length the response reports, exactly when
    the response was received; the run then returns the second GetTime's
    status, which is not an error.
  */
  lemma SuccessPrints(fw: Firmware)
    ensures forall n :: PrintBody(n) in Run(fw).log <==> Received(fw) && n == fw.bodyLength
    ensures Received(fw) ==> Run(fw).Returned? && Run(fw).status == fw.time2.status && !IsError(Run(fw).status)
  {
    forall n
      ensures PrintBody(n) in Run(fw).log <==> Received(fw) && n == fw.bodyLength
    {
      InRun(fw, PrintBody(n));
      RequestedMakes(fw, PrintBody(n));
      FetchedPrint(fw);
    }
    CleanupLog(fw, Phases(fw));
  }

  /**
    A response that is not received in time is cancelled once, the run
    returns EFI_TIMEOUT and the body is not printed.
  */
  lemma ResponseTimeout(fw: Firmware)
    requires RequestSent(fw) && Fetch(fw) == 4 && ResponseWait(fw).end == TimedOut
    ensures Run(fw).Returned? && Run(fw).status == EFI_TIMEOUT
    ensures OccursOnce(Run(fw).log, Cancel(ResponseToken))
    ensures forall n :: PrintBody(n) !in Run(fw).log
  {
    var first := Requested(fw).log;
    var got := Asked(4) + ResponseWait(fw).calls;
    var after := [FreePool(ResponseBody)] + FreeControllers(fw);
    CleanupLog(fw, Phases(fw));
    RequestedMakes(fw, Cancel(ResponseToken));
    assert Fetched(fw).log == got + [Cancel(ResponseToken)];
    assert Cancel(ResponseToken) !in got;
    assert Run(fw).log == (first + got) + [Cancel(ResponseToken)] + after;
    OnceBetween(first + got, Cancel(ResponseToken), after);
    SuccessPrints(fw);
  }

  /**
    Once Response has been issued, every exit frees the body buffer exactly
    once; until then it is never freed.
  */
  lemma BodyFreedOnce(fw: Firmware)
    requires Run(fw).Returned?
    ensures if Response(BODY_SIZE) in Run(fw).log then OccursOnce(Run(fw).log, FreePool(ResponseBody))
            else FreePool(ResponseBody) !in Run(fw).log
  {
    var p := Phases(fw);
    CleanupLog(fw, p);
    InRun(fw, Response(BODY_SIZE));
    RequestedMakes(fw, Response(BODY_SIZE));
    InPhases(fw, FreePool(ResponseBody));
    RequestedMakes(fw, FreePool(ResponseBody));
    FetchedMakes(fw, FreePool(ResponseBody));
    if p.exit == Goto(OutFreeResponse) || p.exit == Next {
      assert RequestSent(fw) && 2 <= Fetch(fw);
      assert Run(fw).log == p.log + [FreePool(ResponseBody)] + FreeControllers(fw);
      OnceBetween(p.log, FreePool(ResponseBody), FreeControllers(fw));
    } else {
      assert Response(BODY_SIZE) !in Run(fw).log;
      InRun(fw, FreePool(ResponseBody));
    }
  }

  /**
    When the response CreateEvent fails after the body buffer was
    allocated, the run returns that failure without freeing the buffer:
    the `goto out_free_controllers` skips the FreePool.
  */
  lemma ResponseBufferLeak(fw: Firmware)
    requires RequestSent(fw) && !IsError(fw.allocatePool) && IsError(fw.responseEvent)
    ensures Run(fw).Returned? && Run(fw).status == fw.responseEvent
    ensures AllocatePool(BODY_SIZE) in Run(fw).log && FreePool(ResponseBody) !in Run(fw).log
  {
    CleanupLog(fw, Phases(fw));
    InRun(fw, FreePool(ResponseBody));
    RequestedMakes(fw, FreePool(ResponseBody));
    FetchedMakes(fw, FreePool(ResponseBody));
    assert AllocatePool(BODY_SIZE) in Fetched(fw).log;
  }

  /** The buffer Response fills is the one allocated, of the capacity ResponseMessage declares. */
  lemma ResponseCapacity(fw: Firmware)
    ensures forall n :: AllocatePool(n) in Run(fw).log ==> n == BODY_SIZE
    ensures forall n :: Response(n) in Run(fw).log ==> n == BODY_SIZE && AllocatePool(n) in Run(fw).log
  {
    FetchedSizes(fw);
    forall n | AllocatePool(n) in Run(fw).log
      ensures n == BODY_SIZE
    {
      InRun(fw, AllocatePool(n));
      RequestedMakes(fw, AllocatePool(n));
    }
    forall n | Response(n) in Run(fw).log
      ensures n == BODY_SIZE && AllocatePool(n) in Run(fw).log
    {
      InRun(fw, Response(n));
      RequestedMakes(fw, Response(n));
      InRun(fw, AllocatePool(n));
    }
  }

  /** The child created by CreateChild is never destroyed, on any path. */
  lemma ChildNeverDestroyed(fw: Firmware)
    ensures DestroyChild !in Run(fw).log
  {
    InRun(fw, DestroyChild);
    RequestedMakes(fw, DestroyChild);
    FetchedMakes(fw, DestroyChild);
  }

  /** Each token is cancelled exactly when its wait timed out, and a cancelled run returns EFI_TIMEOUT. */
  lemma CancelOnlyOnTimeout(fw: Firmware)
    ensures Cancel(RequestToken) in Run(fw).log <==> Setup(fw) == 9 && RequestWait(fw).end == TimedOut
    ensures Cancel(ResponseToken) in Run(fw).log <==> RequestSent(fw) && Fetch(fw) == 4 && ResponseWait(fw).end == TimedOut
    ensures forall t :: Cancel(t) in Run(fw).log ==> Run(fw).Returned? && Run(fw).status == EFI_TIMEOUT
  {
    InRun(fw, Cancel(RequestToken));
    InRun(fw, Cancel(ResponseToken));
    RequestedCalls(fw);
    RequestedMakes(fw, Cancel(ResponseToken));
    FetchedMakes(fw, Cancel(RequestToken));
    FetchedCancel(fw);
    forall t | Cancel(t) in Run(fw).log
      ensures Run(fw).Returned? && Run(fw).status == EFI_TIMEOUT
    {
      if t == RequestToken {
        RequestTimeout(fw);
      } else {
        ResponseTimeout(fw);
      }
    }
  }

  /** What the two Cancel calls return has no effect on the run. */
  lemma CancelStatusIgnored(fw: Firmware, request: Status, response: Status)
    ensures Run(fw.(cancelRequest := request, cancelResponse := response)) == Run(fw)
  {
    var other := fw.(cancelRequest := request, cancelResponse := response);
    assert Requested(other) == Requested(fw);
    assert Fetched(other) == Fetched(fw);
  }
}
