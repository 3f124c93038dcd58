/**
  The device-handle record behind a camera (the source's `NODE`) as a value,
  and each operation of the camera as a function from the old record to the
  new one. The classes in module Camera are proved to update their fields
  exactly as these functions say; the lemmas here state what the functions
  promise over single calls and over whole sequences of calls.
 */
module Lifecycle {
  import opened Wrappers
  import opened Uvc
  import opened Translation

  /** The lifecycle byte `NODE::state`. */
  const CLOSED := 0
  const OPEN := 1
  const STREAMING := 2

  /** How long, in milliseconds, a handle counts as alive after its last stamp. */
  const LIVENESS_WINDOW := 3000

  /**
    `frame_t`: the latest frame's metadata and the number of times `get_frame`
    has handed it out. `data` is the driver's buffer, which the handle borrows.
   */
  datatype Frame = Frame(
    count: nat,
    height: int,
    width: int,
    format: UvcFrameFormat,
    data: Address,
    size: nat)

  /** The frame slot of a value-initialised `NODE`: all fields zero. */
  const EmptyFrame := Frame(0, 0, 0, FrameAny, 0, 0)

  /**
    The state of one `NODE`: which driver handles are held (the pointers
    `devh`, `ctx`, `dev` being non-null), whether a frame callback is
    registered, the last error text, the frame slot, the liveness stamp and the
    lifecycle byte; then, as history, the driver calls made on the handle's
    behalf and the messages reported to the process-wide error sink.
   */
  datatype NodeState = NodeState(
    hasDevh: bool,
    hasCtx: bool,
    hasDev: bool,
    hasCallback: bool,
    err: string,
    frm: Frame,
    stamp: uint64,
    state: int,
    calls: seq<DriverCall>,
    reports: seq<string>)

  /** The invariant every operation keeps: a tri-state byte and a frame handed out at most twice. */
  predicate Valid(h: NodeState)
  {
    CLOSED <= h.state <= STREAMING && h.frm.count <= 2
  }

  /** A freshly allocated `NODE`: null handles, empty error, zeroed frame, stamp and state 0. */
  function Fresh(): (h: NodeState)
    ensures Valid(h) && h.state == CLOSED
    ensures !h.hasDevh && !h.hasCtx && !h.hasDev && !h.hasCallback
  {
    NodeState(false, false, false, false, "", EmptyFrame, 0, CLOSED, [], [])
  }

  // ---------------------------------------------------------------------------
  // Construction

  /**
    What `errno` and the error report leave behind after a driver call
    returned `e`: the message is stored, and reported when there is one.
   */
  function AfterCall(h: NodeState, e: UvcError): (r: NodeState)
  {
    var m := ErrorMessage(e);
    h.(err := m, reports := h.reports + if Translated(e) then [m] else [])
  }

  /** One driver call returning `code`: logged, translated by `errno` and, on failure, reported. */
  function Attempt(h: NodeState, call: DriverCall, code: UvcError): (r: NodeState)
  {
    AfterCall(h.(calls := h.calls + [call]), code)
  }

  /**
    The opening constructor: initialise a driver context, find the device,
    open it, stopping at the first call whose code `errno` translates. The
    handle is open, stamped with `now`, exactly when no call failed; on a
    failure it stays closed with a non-empty, reported error. Handles the
    driver returned before the failure are kept.
   */
  function Construct(vid: uint16, pid: uint16, serial: Option<string>,
                     init: UvcError, find: UvcError, open: UvcError, now: uint64): (r: NodeState)
    ensures Valid(r) && r.frm == EmptyFrame && !r.hasCallback
    ensures r.state == OPEN <==> !Translated(init) && !Translated(find) && !Translated(open)
    ensures r.state != OPEN ==> r.state == CLOSED && r.stamp == 0 && r.err != "" && r.reports == [r.err]
    ensures r.state == OPEN ==> r.stamp == now && r.err == "" && r.reports == []
    ensures r.calls == if Translated(init) then [Init]
                       else if Translated(find) then [Init, FindDevice(vid, pid, serial)]
                       else [Init, FindDevice(vid, pid, serial), OpenDevice]
    ensures r.err == if Translated(init) then ErrorMessage(init)
                     else if Translated(find) then ErrorMessage(find)
                     else ErrorMessage(open)
    ensures r.hasCtx <==> init == Success
    ensures r.hasDev <==> !Translated(init) && find == Success
    ensures r.hasDevh <==> !Translated(init) && !Translated(find) && open == Success
  {
    ConstructInit(Fresh(), vid, pid, serial, init, find, open, now)
  }

  /** The opening constructor from record `h`: initialise a context, then find and open the device. */
  function ConstructInit(h: NodeState, vid: uint16, pid: uint16, serial: Option<string>,
                         init: UvcError, find: UvcError, open: UvcError, now: uint64): (r: NodeState)
    ensures r.frm == h.frm && r.hasCallback == h.hasCallback
  {
    var h1 := Attempt(h, Init, init).(hasCtx := init == Success);
    if Translated(init) then h1 else ConstructFind(h1, vid, pid, serial, find, open, now)
  }

  /** The opening constructor once the context was initialised: find the device, then open it. */
  function ConstructFind(h: NodeState, vid: uint16, pid: uint16, serial: Option<string>,
                         find: UvcError, open: UvcError, now: uint64): (r: NodeState)
    ensures r.frm == h.frm && r.hasCallback == h.hasCallback && r.hasCtx == h.hasCtx
  {
    var h2 := Attempt(h.(hasDev := find == Success), FindDevice(vid, pid, serial), find);
    if Translated(find) then h2 else ConstructOpen(h2, open, now)
  }

  /** The opening constructor once the device was found: open it and, on success, stamp it open. */
  function ConstructOpen(h: NodeState, open: UvcError, now: uint64): (r: NodeState)
    ensures r.frm == h.frm && r.hasCallback == h.hasCallback && r.hasCtx == h.hasCtx
    ensures r.hasDev == h.hasDev
  {
    var h3 := Attempt(h.(hasDevh := open == Success), OpenDevice, open);
    if Translated(open) then h3 else h3.(state := OPEN, stamp := now)
  }

  // ---------------------------------------------------------------------------
  // Liveness

  /** `now - stamp` on `ulong`: the uint64 congruent to the true difference. */
  function Elapsed(now: uint64, stamp: uint64): (d: uint64)
    ensures d % TWO_64 == (now - stamp) % TWO_64
  {
    if now >= stamp then now - stamp else now - stamp + TWO_64
  }

  /**
    `is_available`: the handle is open or streaming, holds a driver context,
    and `now` lies in the 3000 ms window after the stamp. The window is
    measured with unsigned subtraction, so a clock reading before the stamp
    counts only when it is within 3000 ms of wrapping around.
   */
  function Available(h: NodeState, now: uint64): (r: bool)
    ensures r <==> h.state >= OPEN && h.hasCtx &&
                   ((h.stamp <= now < h.stamp + LIVENESS_WINDOW) ||
                    (now < h.stamp && now + TWO_64 < h.stamp + LIVENESS_WINDOW))
  {
    h.state >= OPEN && h.hasCtx && Elapsed(now, h.stamp) < LIVENESS_WINDOW
  }

  // ---------------------------------------------------------------------------
  // Streaming

  /**
    `start_recording`. Nothing changes when the handle is already streaming
    or not available. Otherwise the state becomes streaming and a callback is
    registered before the driver is asked for a stream control for the
    translated format; streaming is started only if that succeeded. The state
    stays streaming whatever the two calls return; a failure leaves its
    message stored and reported.
   */
  function StartRecording(h: NodeState, format: int32, width: int, height: int, fps: int,
                          ctrl: UvcError, start: UvcError, now: uint64): (r: NodeState)
    ensures Valid(h) ==> Valid(r)
    ensures h.state == STREAMING || !Available(h, now) ==> r == h
    ensures h.state != STREAMING && Available(h, now) ==>
              && r.state == STREAMING && r.hasCallback
              && r.err == (if Translated(ctrl) then ErrorMessage(ctrl) else ErrorMessage(start))
              && r.reports == h.reports + (if r.err != "" then [r.err] else [])
              && r.calls == h.calls + [GetStreamCtrl(GetType(ToUint32(format)), width, height, fps)]
                                    + (if Translated(ctrl) then [] else [StartStreaming])
              && r == h.(state := r.state, hasCallback := true, err := r.err,
                         reports := r.reports, calls := r.calls)
  {
    if h.state == STREAMING || !Available(h, now) then h
    else Negotiate(h, format, width, height, fps, ctrl, start)
  }

  /**
    `start_recording` past its guard: mark the handle streaming, register the
    callback, request a stream control and, if that succeeded, start streaming.
   */
  function Negotiate(h: NodeState, format: int32, width: int, height: int, fps: int,
                     ctrl: UvcError, start: UvcError): (r: NodeState)
    ensures r.state == STREAMING && r.hasCallback && r.frm == h.frm
  {
    var s := h.(state := STREAMING, hasCallback := true);
    var c := Attempt(s, GetStreamCtrl(GetType(ToUint32(format)), width, height, fps), ctrl);
    if Translated(ctrl) then c else Attempt(c, StartStreaming, start)
  }

  /**
    `stop_recording`: nothing changes unless the handle is available; then
    the driver is told to stop and the state becomes open, nothing else.
   */
  function StopRecording(h: NodeState, now: uint64): (r: NodeState)
    ensures Valid(h) ==> Valid(r)
    ensures !Available(h, now) ==> r == h
    ensures Available(h, now) ==> r == h.(state := OPEN, calls := h.calls + [StopStreaming])
  {
    if Available(h, now) then h.(state := OPEN, calls := h.calls + [StopStreaming]) else h
  }

  // ---------------------------------------------------------------------------
  // Frame delivery and consumption

  /**
    `frame_callback`, the trampoline the driver calls: a null frame or null
    user data yields nothing, otherwise a zeroed descriptor filled from the
    driver's frame, with a consumption count of 0.
   */
  function Trampoline(frame: Option<UvcFrame>, userData: bool): (r: Option<Frame>)
    ensures r.Some? <==> frame.Some? && userData
    ensures r.Some? ==> && r.value.count == 0
                        && r.value.format == frame.value.frameFormat
                        && r.value.size == frame.value.dataBytes
                        && r.value.height == frame.value.height
                        && r.value.width == frame.value.width
                        && r.value.data == frame.value.data
  {
    if frame.None? || !userData then None
    else
      var raw := EmptyFrame;
      Some(raw.(format := frame.value.frameFormat, size := frame.value.dataBytes,
                height := frame.value.height, width := frame.value.width,
                data := frame.value.data, count := 0))
  }

  /** The callback registered by `start_recording`: overwrite the slot and refresh the stamp. */
  function OnFrame(h: NodeState, f: Frame, now: uint64): (r: NodeState)
    ensures r.frm == f && r.stamp == now
    ensures r == h.(frm := r.frm, stamp := r.stamp)
  {
    h.(frm := f, stamp := now)
  }

  /**
    One frame arriving from the driver (trampoline, then callback). A
    delivered frame replaces the slot with a fresh count of 0 and stamps the
    handle with `now`; nothing else changes, and nothing at all on null input.
   */
  function Deliver(h: NodeState, frame: Option<UvcFrame>, userData: bool, now: uint64): (r: NodeState)
    requires h.hasCallback
    ensures Valid(h) ==> Valid(r)
    ensures frame.None? || !userData ==> r == h
    ensures frame.Some? && userData ==>
              && r.frm == Trampoline(frame, userData).value
              && r.frm.count == 0 && r.frm.data == frame.value.data && r.stamp == now
              && r == h.(frm := r.frm, stamp := now)
  {
    match Trampoline(frame, userData)
    case None => h
    case Some(f) => OnFrame(h, f, now)
  }

  /**
    `get_frame`: once the slot has been handed out twice, no frame and no
    change; otherwise the count goes up by exactly one and the slot itself,
    count included, is handed out.
   */
  function GetFrame(h: NodeState): (res: (NodeState, Option<Frame>))
    ensures Valid(h) ==> Valid(res.0)
    ensures h.frm.count > 1 ==> res.0 == h && res.1 == None
    ensures h.frm.count <= 1 ==> && res.0.frm == h.frm.(count := h.frm.count + 1)
                                 && res.0 == h.(frm := res.0.frm)
                                 && res.1 == Some(res.0.frm)
  {
    if h.frm.count > 1 then (h, None)
    else
      var h' := h.(frm := h.frm.(count := h.frm.count + 1));
      (h', Some(h'.frm))
  }

  // ---------------------------------------------------------------------------
  // Teardown

  /** The release calls `free` makes for the handles `h` holds, in its order. */
  function Releases(h: NodeState): (calls: seq<DriverCall>)
    ensures StopStreaming !in calls
    ensures |calls| <= 3
    ensures CloseDevice in calls <==> h.hasDevh
    ensures UnrefDevice in calls <==> h.hasDev
    ensures Exit in calls <==> h.hasCtx
  {
    (if h.hasDevh then [CloseDevice] else []) +
    (if h.hasDev then [UnrefDevice] else []) +
    (if h.hasCtx then [Exit] else [])
  }

  /** Each held driver handle is released exactly once, and nothing else is released. */
  lemma ReleasesOnce(h: NodeState)
    ensures multiset(Releases(h))[CloseDevice] == (if h.hasDevh then 1 else 0)
    ensures multiset(Releases(h))[UnrefDevice] == (if h.hasDev then 1 else 0)
    ensures multiset(Releases(h))[Exit] == (if h.hasCtx then 1 else 0)
    ensures |Releases(h)| == multiset(Releases(h))[CloseDevice] + multiset(Releases(h))[UnrefDevice]
                              + multiset(Releases(h))[Exit]
  {
  }

  /**
    `free` (and `close`): a closed handle is left alone. Otherwise the state
    becomes closed and each held handle is released once. The pointers are
    not reset, and the inner `stop_recording` finds the handle closed, so it
    does not stop the stream; `now` is the clock reading it would compare.
   */
  function Free(h: NodeState, now: uint64): (r: NodeState)
    ensures Valid(h) ==> Valid(r)
    ensures h.state == CLOSED ==> r == h
    ensures h.state != CLOSED ==> r == h.(state := CLOSED, calls := h.calls + Releases(h))
  {
    if h.state == CLOSED then h
    else
      var c := h.(state := CLOSED);
      assert !Available(c, now);
      var d := if c.hasDevh then StopRecording(c, now) else c;
      var e := if d.hasDevh then d.(calls := d.calls + [CloseDevice]) else d;
      var f := if e.hasDev then e.(calls := e.calls + [UnrefDevice]) else e;
      if f.hasCtx then f.(calls := f.calls + [Exit]) else f
  }

  /**
    `~camera_t` on a handle whose `NODE` is shared `shares` times, counting
    the share the registered callback holds: only the last sharer frees the
    hardware; every destruction drops one share.
   */
  function Destroy(h: NodeState, shares: nat, now: uint64): (r: (NodeState, nat))
    requires shares >= 1
    ensures r.1 == shares - 1
    ensures shares > 1 ==> r.0 == h
    ensures shares == 1 ==> r.0 == Free(h, now)
  {
    (if shares > 1 then h else Free(h, now), shares - 1)
  }

  /**
    The shares of the record held by its registered callback. The lambda
    `start_recording` registers captures a bound copy of the handle, and the
    callback is stored in the record itself, so that copy's share lasts as
    long as the callback does; a later registration replaces the callback,
    dropping the old copy's share as the new one is taken.
   */
  function CallbackShares(h: NodeState): (n: nat)
    ensures n <= 1 && (n == 1 <==> h.hasCallback)
  {
    if h.hasCallback then 1 else 0
  }

  /** Destroying sharers one after another, the i-th at clock reading `times[i]`. */
  function DestroyEach(h: NodeState, shares: nat, times: seq<uint64>): (r: NodeState)
    requires |times| <= shares
    decreases |times|
  {
    if times == [] then h
    else
      var d := Destroy(h, shares, times[0]);
      DestroyEach(d.0, d.1, times[1..])
  }

  // ---------------------------------------------------------------------------
  // Sequences of operations

  /** One call a consumer or the driver can make on the handle. */
  datatype Op =
    | Start(format: int32, width: int, height: int, fps: int, ctrl: UvcError, start: UvcError, now: uint64)
    | Stop(now: uint64)
    | Read
    | Arrive(frame: Option<UvcFrame>, now: uint64)
    | Close(now: uint64)

  /**
    The effect of one call. Frames arrive only once `start_recording` has
    registered the callback; the driver passes it as non-null user data.
   */
  function Step(h: NodeState, op: Op): (r: NodeState)
  {
    match op
    case Start(format, width, height, fps, ctrl, start, now) =>
      StartRecording(h, format, width, height, fps, ctrl, start, now)
    case Stop(now) => StopRecording(h, now)
    case Read => GetFrame(h).0
    case Arrive(frame, now) => if h.hasCallback then Deliver(h, frame, true, now) else h
    case Close(now) => Free(h, now)
  }

  /** The record after a sequence of calls. */
  function Run(h: NodeState, ops: seq<Op>): (r: NodeState)
    decreases |ops|
  {
    if ops == [] then h else Run(Step(h, ops[0]), ops[1..])
  }

  /** How many of the `Read` calls in `ops` get a frame rather than null. */
  function Hits(h: NodeState, ops: seq<Op>): (n: nat)
    decreases |ops|
  {
    if ops == [] then 0
    else (if ops[0].Read? && GetFrame(h).1.Some? then 1 else 0) + Hits(Step(h, ops[0]), ops[1..])
  }

  /** `k` calls of `get_frame` in a row. */
  function Reads(k: nat): (ops: seq<Op>)
    ensures |ops| == k && forall i :: 0 <= i < k ==> ops[i].Read?
  {
    seq(k, _ => Read)
  }

  function Min(a: int, b: int): (m: int) { if a <= b then a else b }

  // ---------------------------------------------------------------------------
  // Lemmas

  /** No sequence of calls breaks the invariant: the state stays in 0..2 and the count at most 2. */
  lemma {:induction false} RunKeepsValid(h: NodeState, ops: seq<Op>)
    requires Valid(h)
    ensures Valid(Run(h, ops))
    decreases |ops|
  {
    if ops != [] {
      var h' := Step(h, ops[0]);
      assert Valid(h');
      RunKeepsValid(h', ops[1..]);
    }
  }

  /**
    Between two frame arrivals, whatever else happens, `get_frame` hands the
    slot out at most twice in all: at most `2 - count` more times.
   */
  lemma {:induction false} AtMostTwoReadsPerFrame(h: NodeState, ops: seq<Op>)
    requires Valid(h)
    requires forall i :: 0 <= i < |ops| ==> !ops[i].Arrive?
    ensures Hits(h, ops) <= 2 - h.frm.count
    decreases |ops|
  {
    if ops != [] {
      var h' := Step(h, ops[0]);
      assert Valid(h');
      assert ops[0].Read? && GetFrame(h).1.Some? ==> h'.frm.count == h.frm.count + 1;
      assert !ops[0].Read? ==> h'.frm == h.frm;
      AtMostTwoReadsPerFrame(h', ops[1..]);
    }
  }

  /** `k` reads in a row on a slot handed out `count` times succeed `min(k, 2 - count)` times. */
  lemma {:induction false} ReadsInARow(h: NodeState, k: nat)
    requires Valid(h)
    ensures Hits(h, Reads(k)) == Min(k, 2 - h.frm.count)
    decreases k
  {
    if k > 0 {
      var h' := GetFrame(h).0;
      assert Reads(k)[1..] == Reads(k - 1);
      ReadsInARow(h', k - 1);
    }
  }

  /**
    After a frame arrives, exactly the first two of any number of consecutive
    `get_frame` calls return it; the third and later return null.
   */
  lemma ReadsAfterArrival(h: NodeState, frame: UvcFrame, now: uint64, k: nat)
    requires Valid(h) && h.hasCallback
    ensures Hits(Deliver(h, Some(frame), true, now), Reads(k)) == Min(k, 2)
  {
    ReadsInARow(Deliver(h, Some(frame), true, now), k);
  }

  /** A handle that never streamed still hands out its zeroed slot, twice. */
  lemma NeverStreamedReadTwice(k: nat)
    ensures Hits(Fresh(), Reads(k)) == Min(k, 2)
  {
    ReadsInARow(Fresh(), k);
  }

  /** Once the window has passed, even a streaming handle is reported unavailable. */
  lemma StaleIsUnavailable(h: NodeState, now: uint64)
    requires h.stamp + LIVENESS_WINDOW <= now
    ensures !Available(h, now)
  {
  }

  /** A delivered frame keeps an open handle with a context available for the next 3000 ms. */
  lemma ArrivalKeepsAlive(h: NodeState, frame: UvcFrame, now: uint64, later: uint64)
    requires h.hasCallback && h.state >= OPEN && h.hasCtx
    requires now <= later < now + LIVENESS_WINDOW
    ensures Available(Deliver(h, Some(frame), true, now), later)
  {
  }

  /** `free` twice is `free` once: the second call finds the handle closed and releases nothing. */
  lemma FreeIdempotent(h: NodeState, t1: uint64, t2: uint64)
    ensures Free(Free(h, t1), t2) == Free(h, t1)
    ensures Free(Free(h, t1), t2).calls ==
              h.calls + (if h.state == CLOSED then [] else Releases(h))
  {
  }

  /** All sharers destroyed in turn: the hardware is released once, by the last of them. */
  lemma {:induction false} DestroyEachReleasesOnce(h: NodeState, shares: nat, times: seq<uint64>)
    requires |times| <= shares
    ensures |times| < shares ==> DestroyEach(h, shares, times) == h
    ensures |times| == shares > 0 ==>
              DestroyEach(h, shares, times) == Free(h, times[|times| - 1])
    ensures |times| == shares > 0 ==>
              DestroyEach(h, shares, times).calls ==
                h.calls + (if h.state == CLOSED then [] else Releases(h))
    decreases |times|
  {
    if times != [] {
      var d := Destroy(h, shares, times[0]);
      DestroyEachReleasesOnce(d.0, d.1, times[1..]);
      if shares > 1 {
        assert d.0 == h;
      } else {
        assert |times| == 1 && times[1..] == [];
      }
    }
  }

  /**
    Once a callback is registered, destroying every handle the program holds
    never frees the record: the callback's own share outlives them, so the
    hardware stays claimed. Only `close` (or `free`) still releases it.
   */
  lemma CallbackPinsRecord(h: NodeState, handles: nat, times: seq<uint64>, now: uint64)
    requires h.hasCallback && |times| == handles
    ensures DestroyEach(h, handles + CallbackShares(h), times) == h
    ensures h.state != CLOSED ==>
              Free(h, now).state == CLOSED && Free(h, now).calls == h.calls + Releases(h)
  {
    DestroyEachReleasesOnce(h, handles + CallbackShares(h), times);
  }

  /**
    The context leak: when `uvc_init` succeeds and finding the device fails,
    the context is held while the state is closed, so `free` does nothing and
    the context is never released.
   */
  lemma ContextLeak(vid: uint16, pid: uint16, serial: Option<string>,
                    find: UvcError, open: UvcError, now: uint64, later: uint64)
    requires Translated(find)
    ensures var r := Construct(vid, pid, serial, Success, find, open, now);
            r.hasCtx && r.state == CLOSED && Free(r, later) == r && Exit !in Free(r, later).calls
  {
  }

  /**
    A code outside `errno`'s table counts as success: a constructor whose
    three driver calls all return `UVC_ERROR_OVERFLOW` reports the handle open,
    though it holds no driver handle and is never available.
   */
  lemma UnlistedCodesOpen(vid: uint16, pid: uint16, serial: Option<string>, now: uint64, later: uint64)
    ensures var r := Construct(vid, pid, serial, ErrorOverflow, ErrorOverflow, ErrorOverflow, now);
            r.state == OPEN && !r.hasCtx && !r.hasDev && !r.hasDevh && !Available(r, later)
  {
  }

  /** A device that cannot be found leaves an inert handle with the "No such device" message. */
  lemma MissingDeviceScenario(vid: uint16, pid: uint16, serial: Option<string>,
                              open: UvcError, now: uint64, later: uint64)
    ensures var r := Construct(vid, pid, serial, Success, ErrorNoDevice, open, now);
            !Available(r, later) && r.err == "No such device" && r.reports == ["No such device"]
  {
  }

  /** `start_recording` on a default-constructed handle is a no-op. */
  lemma DefaultStartIsNoOp(format: int32, width: int, height: int, fps: int,
                           ctrl: UvcError, start: UvcError, now: uint64)
    ensures StartRecording(Fresh(), format, width, height, fps, ctrl, start, now) == Fresh()
    ensures !Available(Fresh(), now)
  {
  }
}
