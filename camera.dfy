/**
  The camera handle as the source has it: `Node` is the shared `NODE` record,
  whose fields the camera's methods update in place, and `Camera` is
  `camera_t`, a thin handle holding a shared reference to one `Node`. Every
  method is proved to change its `Node` exactly as the matching function of
  module Lifecycle says, so the lemmas proved there hold of the objects.
  Calls into the driver are replaced by the error codes they return, passed
  in as parameters, and the process clock by a parameter `now`.
 */
module Camera {
  import opened Wrappers
  import opened Uvc
  import opened Translation
  import Lifecycle

  /** `NODE`: the record behind every camera handle that shares it. */
  class Node {
    var hasDevh: bool
    var hasCtx: bool
    var hasDev: bool
    var hasCallback: bool
    var err: string
    var frm: Lifecycle.Frame
    var stamp: uint64
    var state: int
    /**
      The share count of the reference-counted pointer to this record: one
      per handle, plus one for the handle bound into a registered callback.
     */
    var shares: nat
    /** The driver calls made for this record, oldest first. */
    ghost var calls: seq<DriverCall>
    /** The messages reported to the process-wide error sink for this record. */
    ghost var reports: seq<string>

    /** The record's fields as one value. */
    ghost function Model(): Lifecycle.NodeState
      reads this
    {
      Lifecycle.NodeState(hasDevh, hasCtx, hasDev, hasCallback, err, frm, stamp, state, calls, reports)
    }

    /** `new NODE()`: value-initialised, not yet referenced by any handle. */
    constructor ()
      ensures Model() == Lifecycle.Fresh() && shares == 0
    {
      hasDevh, hasCtx, hasDev, hasCallback := false, false, false, false;
      err := "";
      frm := Lifecycle.EmptyFrame;
      stamp, state, shares := 0, Lifecycle.CLOSED, 0;
      calls, reports := [], [];
    }
  }

  /** `camera_t`: a handle sharing one `Node`. */
  class Camera {
    const obj: Node

    /**
      The record keeps its invariant, and its share count includes this
      handle's share and, once a callback is registered, the callback's.
     */
    ghost predicate Valid()
      reads obj
    {
      Lifecycle.Valid(obj.Model()) && obj.shares >= 1 + (if obj.hasCallback then 1 else 0)
    }

    /** The default constructor: an inert handle that never contacts the driver. */
    constructor Default()
      ensures Valid() && fresh(obj) && obj.shares == 1
      ensures obj.Model() == Lifecycle.Fresh()
    {
      obj := new Node();
      new;
      obj.shares := 1;
    }

    /**
      The opening constructor. `init`, `find` and `open` are what `uvc_init`,
      `uvc_find_device` and `uvc_open` return; a driver call writes its
      handle exactly when it returns `UVC_SUCCESS`.
     */
    constructor Open(vid: uint16, pid: uint16, serial: Option<string>,
                     init: UvcError, find: UvcError, open: UvcError, now: uint64)
      ensures obj.Model() == Lifecycle.Construct(vid, pid, serial, init, find, open, now)
      ensures Valid() && fresh(obj) && obj.shares == 1
    {
      obj := new Node();
      new;
      obj.shares := 1;
      Connect(vid, pid, serial, init, find, open, now);
    }

    /** The body of the opening constructor: initialise a context. */
    method Connect(vid: uint16, pid: uint16, serial: Option<string>,
                   init: UvcError, find: UvcError, open: UvcError, now: uint64)
      modifies obj
      ensures obj.shares == old(obj.shares)
      ensures obj.Model() == Lifecycle.ConstructInit(old(obj.Model()), vid, pid, serial, init, find, open, now)
    {
      var failed := Attempt(Init, init);
      obj.hasCtx := init == Success;
      if !failed {
        FindAndOpen(vid, pid, serial, find, open, now);
      }
    }

    /** The opening constructor once the context is initialised: find the device. */
    method FindAndOpen(vid: uint16, pid: uint16, serial: Option<string>,
                       find: UvcError, open: UvcError, now: uint64)
      modifies obj
      ensures obj.shares == old(obj.shares)
      ensures obj.Model() == Lifecycle.ConstructFind(old(obj.Model()), vid, pid, serial, find, open, now)
    {
      obj.hasDev := find == Success;
      var failed := Attempt(FindDevice(vid, pid, serial), find);
      if !failed {
        OpenFound(open, now);
      }
    }

    /** The opening constructor once the device is found: open it. */
    method OpenFound(open: UvcError, now: uint64)
      modifies obj
      ensures obj.shares == old(obj.shares)
      ensures obj.Model() == Lifecycle.ConstructOpen(old(obj.Model()), open, now)
    {
      obj.hasDevh := open == Success;
      var failed := Attempt(OpenDevice, open);
      if !failed {
        obj.state := Lifecycle.OPEN;
        obj.stamp := now;
      }
    }

    /**
      One driver call, returning `code`, checked the way the camera checks
      every call: the call is made, `errno` translates the code, and a
      translated failure is reported to the error sink.
     */
    method Attempt(call: DriverCall, code: UvcError) returns (failed: bool)
      modifies obj
      ensures obj.shares == old(obj.shares)
      ensures failed <==> Translated(code)
      ensures obj.Model() == Lifecycle.Attempt(old(obj.Model()), call, code)
    {
      obj.calls := obj.calls + [call];
      failed := Errno(code);
      if failed {
        obj.reports := obj.reports + [obj.err];
      }
    }

    /** The copy constructor: a second handle on the same record, one more share. */
    constructor Share(other: Camera)
      requires other.Valid()
      modifies other.obj
      ensures obj == other.obj && Valid() && other.Valid()
      ensures obj.shares == old(other.obj.shares) + 1
      ensures obj.Model() == old(other.obj.Model())
    {
      obj := other.obj;
      new;
      obj.shares := obj.shares + 1;
    }

    /**
      `errno`: store the message for `e`, or clear the error text when `e` is
      not one of the twelve translated codes; report whether it was.
     */
    method Errno(e: UvcError) returns (failed: bool)
      modifies obj`err
      ensures failed <==> Translated(e)
      ensures obj.err == ErrorMessage(e)
    {
      obj.err := ErrorMessage(e);
      failed := obj.err != "";
    }

    /** `is_available`, with the clock reading `now`. */
    function IsAvailable(now: uint64): (r: bool)
      reads obj
      ensures r == Lifecycle.Available(obj.Model(), now)
    {
      obj.state >= Lifecycle.OPEN && obj.hasCtx &&
      Lifecycle.Elapsed(now, obj.stamp) < Lifecycle.LIVENESS_WINDOW
    }

    /** `is_closed`: the negation of `is_available`, so a stale streaming handle is closed. */
    function IsClosed(now: uint64): (r: bool)
      reads obj
      ensures r <==> !Lifecycle.Available(obj.Model(), now)
      ensures obj.state == Lifecycle.CLOSED || !obj.hasCtx ==> r
    {
      !IsAvailable(now)
    }

    /** `start_recording`; `ctrl` and `start` are what the two driver calls return. */
    method StartRecording(format: int32, width: int, height: int, fps: int,
                          ctrl: UvcError, start: UvcError, now: uint64)
      requires Valid()
      modifies obj
      ensures Valid()
      ensures obj.shares == old(obj.shares) + (if obj.hasCallback && !old(obj.hasCallback) then 1 else 0)
      ensures obj.Model() ==
                Lifecycle.StartRecording(old(obj.Model()), format, width, height, fps, ctrl, start, now)
    {
      if obj.state == Lifecycle.STREAMING || !IsAvailable(now) {
        return;
      }
      if !obj.hasCallback {
        // The bound copy captured by the first callback takes a share; a later
        // registration drops the old copy's share as it takes the new one.
        obj.shares := obj.shares + 1;
      }
      Negotiate(format, width, height, fps, ctrl, start);
    }

    /** `start_recording` past its guard. */
    method Negotiate(format: int32, width: int, height: int, fps: int, ctrl: UvcError, start: UvcError)
      modifies obj
      ensures obj.shares == old(obj.shares)
      ensures obj.Model() == Lifecycle.Negotiate(old(obj.Model()), format, width, height, fps, ctrl, start)
    {
      obj.state := Lifecycle.STREAMING;
      obj.hasCallback := true;
      var failed := Attempt(GetStreamCtrl(GetType(ToUint32(format)), width, height, fps), ctrl);
      if !failed {
        failed := Attempt(StartStreaming, start);
      }
    }

    /** `stop_recording`. */
    method StopRecording(now: uint64)
      requires Valid()
      modifies obj
      ensures Valid() && obj.shares == old(obj.shares)
      ensures obj.Model() == Lifecycle.StopRecording(old(obj.Model()), now)
    {
      if IsAvailable(now) {
        obj.calls := obj.calls + [StopStreaming];
        obj.state := Lifecycle.OPEN;
      }
    }

    /**
      The trampoline followed by the registered callback: one frame from the
      driver, with `userData` telling whether its context pointer is non-null.
     */
    method FrameCallback(frame: Option<UvcFrame>, userData: bool, now: uint64)
      requires Valid() && obj.hasCallback
      modifies obj
      ensures Valid() && obj.shares == old(obj.shares)
      ensures obj.Model() == Lifecycle.Deliver(old(obj.Model()), frame, userData, now)
    {
      var raw := Lifecycle.Trampoline(frame, userData);
      if raw.Some? {
        OnFrame(raw.value, now);
      }
    }

    /** The callback `start_recording` registers: copy the frame into the slot, refresh the stamp. */
    method OnFrame(f: Lifecycle.Frame, now: uint64)
      modifies obj
      ensures obj.Model() == Lifecycle.OnFrame(old(obj.Model()), f, now)
      ensures obj.shares == old(obj.shares)
    {
      obj.frm := f;
      obj.stamp := now;
    }

    /** `get_frame`: the slot (after counting this read), or `None` once it was read twice. */
    method GetFrame() returns (f: Option<Lifecycle.Frame>)
      requires Valid()
      modifies obj
      ensures Valid() && obj.shares == old(obj.shares)
      ensures (obj.Model(), f) == Lifecycle.GetFrame(old(obj.Model()))
    {
      if obj.frm.count > 1 {
        return None;
      }
      obj.frm := obj.frm.(count := obj.frm.count + 1);
      f := Some(obj.frm);
    }

    /** `free`; `now` is the clock reading of the inner `stop_recording`. */
    method Free(now: uint64)
      requires Valid()
      modifies obj
      ensures Valid() && obj.shares == old(obj.shares)
      ensures obj.Model() == Lifecycle.Free(old(obj.Model()), now)
    {
      if obj.state == Lifecycle.CLOSED {
        return;
      }
      obj.state := Lifecycle.CLOSED;
      if obj.hasDevh {
        StopRecording(now);
        obj.calls := obj.calls + [CloseDevice];
      }
      if obj.hasDev {
        obj.calls := obj.calls + [UnrefDevice];
      }
      if obj.hasCtx {
        obj.calls := obj.calls + [Exit];
      }
    }

    /** `close`: the same teardown as `free`. */
    method Close(now: uint64)
      requires Valid()
      modifies obj
      ensures Valid() && obj.shares == old(obj.shares)
      ensures obj.Model() == Lifecycle.Free(old(obj.Model()), now)
    {
      Free(now);
    }

    /**
      `~camera_t`: unless another handle still shares the record, free it;
      then the reference-counted pointer drops this handle's share.
     */
    method Destroy(now: uint64)
      requires Valid()
      modifies obj
      ensures (obj.Model(), obj.shares) == Lifecycle.Destroy(old(obj.Model()), old(obj.shares), now)
    {
      if obj.shares <= 1 {
        Free(now);
      }
      obj.shares := obj.shares - 1;
    }
  }
}
