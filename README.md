# camera_t: a verified model of the Nodepp UVC camera handle

Nodepp's `camera_t` (`include/camera/camera.h`) is a thin handle over a
USB Video Class camera, driven through libuvc. Every handle shares one
reference-counted `NODE` record. The record holds:

- the driver context, device and device handle;
- the frame callback;
- the last error text;
- a one-frame slot with a consumption counter;
- the liveness timestamp;
- a lifecycle byte: 0 closed, 1 open, 2 streaming.

This project models that record and the operations on it:

- the two constructors and the destructor;
- `is_available` and `is_closed`, with their 3000 ms liveness window;
- `start_recording` and `stop_recording`;
- the driver's frame trampoline `frame_callback` and the callback lambda it calls;
- `get_frame`, which hands the slot out at most twice;
- `free` and `close`;
- the two translation tables: `errno`, from driver error codes to messages, and `get_type`, from the camera's format enumeration to libuvc's native formats.

The project has five files:

- `uvc.dfy` (module `Uvc`) holds what the camera consumes from libuvc: machine integer types, `uvc_error`, `uvc_frame_format`, the fields of `uvc_frame_t` that are read, and one log entry per driver call.
- `translation.dfy` (module `Translation`) holds `errno`'s message table and `get_type`, each with its inverse.
- `lifecycle.dfy` (module `Lifecycle`) holds the record as a value, `NodeState`. Each operation is a function from the old record to the new one. The lemmas about single operations and about whole sequences of calls live here too.
- `camera.dfy` (module `Camera`) holds the record as a class `Node`, whose fields the methods update in place, and the handle as a class `Camera`. A `Camera` holds its `Node` like the `ptr_t<NODE>`, with an explicit share count. Every method is proved to leave `obj.Model()` equal to the matching `Lifecycle` function of the old record. So every lemma of `Lifecycle` holds of the objects.
- `wrappers.dfy` holds `Option`.

Calls into libuvc are not modelled. Each call is replaced by the `UvcError` it returns, passed in as a parameter. Each call the handle makes is appended to a ghost log `calls`, and each message handed to `process::error` is appended to a ghost log `reports`. The process clock `process::now()` becomes a `uint64` parameter `now`. Its unsigned subtraction against the stamp is modelled with wrap-around (`Lifecycle.Elapsed`).

Four behaviours of the code deserve attention, and the model reproduces each as written:

- **A handle that never streamed still returns a frame.** The value-initialised slot has count 0 (camera.h:38), and `get_frame` only refuses a slot whose count exceeds 1 (camera.h:227). So it hands that slot out twice (`Lifecycle.NeverStreamedReadTwice`).
- **Only twelve codes count as failures.** `errno` treats only the twelve codes in its table as failures. Its `default` branch clears the message and returns false. So an unlisted nonzero code (`UVC_ERROR_OVERFLOW`, `UVC_ERROR_PIPE`, `UVC_ERROR_INTERRUPTED`, `UVC_ERROR_CALLBACK_EXISTS`) lets the constructor go on as if the call had succeeded (`Lifecycle.UnlistedCodesOpen`).
- **The driver context can leak.** If `uvc_init` succeeds and a later step fails, the context is held while the state stays 0, and `free` never releases it (`Lifecycle.ContextLeak`).
- **A registered callback pins the record.** The lambda that `start_recording` registers captures `type::bind(this)`, a bound copy of the handle. The callback is stored in the record itself (camera.h:207-209), so that copy's share lasts as long as the callback, which the record never drops. The destructor's test `obj.count()>1` (camera.h:132) then holds even for the program's last handle. Once a callback is registered, destroying every handle never frees the hardware; only `close` does (`Lifecycle.CallbackPinsRecord`).

## Model

| member | source | states |
|---|---|---|
| Translation.ErrorMessage | include/camera/camera.h:75-89 | `errno` stores a non-empty message exactly for the twelve listed codes; every other code, success included, leaves the field cleared |
| Translation.ErrorMessageRoundTrip | include/camera/camera.h:75-89 | every stored message determines the code it was stored for; a cleared field names no code |
| Translation.ErrorMessagesDistinct | include/camera/camera.h:75-89 | the twelve messages are pairwise distinct |
| Translation.FormatValue | include/camera/camera.h:20-32 | the camera enumeration value of each native format lies in 0..FORMAT_COUNT |
| Translation.GetType | include/camera/camera.h:91-113 | `get_type` maps every enumeration value 0..19 to the native format of the same name (unknown/any for 0) and every larger value to "any" |
| Translation.GetTypeOnto | include/camera/camera.h:91-113 | every native format is the image of its enumeration value |
| Translation.GetTypeInjective | include/camera/camera.h:91-113 | distinct enumeration values map to distinct native formats |
| Translation.ToUint32 | include/camera/camera.h:214 | the `int` format passed to `get_type`'s `uint` parameter keeps its bits modulo 2^32 |
| Translation.NegativeFormatIsAny | include/camera/camera.h:91-113 | a negative format requested from `start_recording` is translated to "any" |
| Lifecycle.Fresh | include/camera/camera.h:46-55 | a new `NODE` is closed, holds no driver handle or callback, and satisfies the record invariant |
| Lifecycle.Construct | include/camera/camera.h:117-130 | the constructor opens the handle, with stamp `now`, iff none of init/find/open returns a listed code; otherwise state 0, a non-empty reported error and stamp 0; the calls made are exactly those up to and including the first failing one, and the stored error is that call's message; each driver handle is held iff its call returned success |
| Lifecycle.Elapsed | include/camera/camera.h:142 | `now - stamp` on `ulong` is the uint64 congruent to the true difference |
| Lifecycle.Available | include/camera/camera.h:140-143 | available iff the state is at least 1, a context is held, and `now` is less than 3000 ms after the stamp, with unsigned wrap-around |
| Lifecycle.StartRecording | include/camera/camera.h:204-220 | no change when streaming or unavailable; otherwise state 2 and a callback are set before the stream control is requested, streaming is started only if that succeeded, state stays 2 on either failure, and the failing message is stored and reported |
| Lifecycle.Negotiate | include/camera/camera.h:207-218 | past the guard, the state becomes 2 and a callback is registered whatever the driver calls return, and the slot is untouched |
| Lifecycle.StopRecording | include/camera/camera.h:222-224 | no change unless available; otherwise stop is requested and the state becomes 1, nothing else changes |
| Lifecycle.Trampoline | include/camera/camera.h:57-73 | null frame or null user data yields nothing; otherwise a descriptor with count 0 and the driver frame's format, size, height, width and data |
| Lifecycle.OnFrame | include/camera/camera.h:209-212 | the lambda overwrites the slot and sets the stamp to `now`, nothing else |
| Lifecycle.Deliver | include/camera/camera.h:57-73 | a frame with non-null inputs replaces the slot with the trampoline's descriptor (every field copied from the driver frame, count 0) and stamps the handle; null input changes nothing; the invariant is kept |
| Lifecycle.GetFrame | include/camera/camera.h:226-229 | null and no change when count > 1; otherwise count grows by exactly one and the slot itself is returned |
| Lifecycle.Releases | include/camera/camera.h:233-237 | the teardown releases the device handle, device and context each exactly when held, and never stops the stream |
| Lifecycle.ReleasesOnce | include/camera/camera.h:233-237 | the teardown releases the device handle, device and context each exactly once when held, never when not, and nothing else |
| Lifecycle.Free | include/camera/camera.h:233-237 | a closed handle is untouched; otherwise state 0 and each held driver handle released once, the inner `stop_recording` doing nothing |
| Lifecycle.Destroy | include/camera/camera.h:132 | the destructor frees the record only when its share count, the callback's share included, is at most 1, and drops one share |
| Lifecycle.CallbackShares | include/camera/camera.h:207-209 | the record holds exactly one share for its registered callback's bound handle, and none without a callback |
| Lifecycle.RunKeepsValid | include/camera/camera.h:204-237 | no sequence of calls takes the state out of 0..2 or the count above 2 |
| Lifecycle.AtMostTwoReadsPerFrame | include/camera/camera.h:226-229 | between frame arrivals, whatever else is called, at most `2 - count` reads return the slot |
| Lifecycle.ReadsInARow | include/camera/camera.h:226-229 | `k` consecutive reads succeed exactly `min(k, 2 - count)` times |
| Lifecycle.ReadsAfterArrival | include/camera/camera.h:57-73 | after each arrival exactly the first two of any run of reads return the frame |
| Lifecycle.NeverStreamedReadTwice | include/camera/camera.h:226-229 | a handle that never streamed hands its value-initialised slot out exactly twice |
| Lifecycle.StaleIsUnavailable | include/camera/camera.h:140-143 | once 3000 ms have passed since the stamp, even a streaming handle is unavailable |
| Lifecycle.ArrivalKeepsAlive | include/camera/camera.h:209-212 | a delivered frame keeps an open handle with a context available for the next 3000 ms |
| Lifecycle.FreeIdempotent | include/camera/camera.h:233-237 | `free` twice equals `free` once, and the second call releases nothing |
| Lifecycle.DestroyEachReleasesOnce | include/camera/camera.h:132 | destroying sharers in turn leaves the record alone while any share remains, and dropping the last share frees it, releasing each held driver handle once |
| Lifecycle.CallbackPinsRecord | include/camera/camera.h:132 | with a callback registered, destroying every handle the program holds leaves the record untouched, while `free` still closes it and releases each held driver handle |
| Lifecycle.ContextLeak | include/camera/camera.h:117-126 | init succeeding and find failing leaves a held context with state 0, which `free` never releases |
| Lifecycle.UnlistedCodesOpen | include/camera/camera.h:75-89 | three unlisted error codes open the handle, with no driver handle held, and it is never available |
| Lifecycle.MissingDeviceScenario | include/camera/camera.h:122-123 | a device that cannot be found leaves an unavailable handle whose error, the only one reported, is "No such device" |
| Lifecycle.DefaultStartIsNoOp | include/camera/camera.h:134 | `start_recording` on a default-constructed handle changes nothing |
| Camera.Node.constructor | include/camera/camera.h:46-55 | a new record equals `Lifecycle.Fresh` with no shares |
| Camera.Camera.Default | include/camera/camera.h:134 | the default constructor shares a fresh record once, and it is closed and inert |
| Camera.Camera.Open | include/camera/camera.h:117-130 | the opening constructor leaves the shared record equal to `Lifecycle.Construct` of the three driver results |
| Camera.Camera.Connect | include/camera/camera.h:119-128 | the constructor body from `uvc_init` on, proved equal to `Lifecycle.ConstructInit` of the record it starts from |
| Camera.Camera.FindAndOpen | include/camera/camera.h:122-128 | the body from `uvc_find_device` on, proved equal to `Lifecycle.ConstructFind` |
| Camera.Camera.OpenFound | include/camera/camera.h:125-128 | the body from `uvc_open` on, proved equal to `Lifecycle.ConstructOpen` |
| Camera.Camera.Attempt | include/camera/camera.h:119-120 | one driver call checked by `errno` and reported on failure; returns whether `errno` counted it a failure |
| Camera.Camera.Share | include/camera/camera.h:55 | copying a handle shares the same record and adds one share, changing nothing else |
| Camera.Camera.Errno | include/camera/camera.h:75-89 | `errno` stores the code's message and returns true exactly for the twelve listed codes |
| Camera.Camera.IsAvailable | include/camera/camera.h:140-143 | computed from the fields, equal to `Lifecycle.Available` |
| Camera.Camera.IsClosed | include/camera/camera.h:138 | the negation of availability; a closed handle or one without a context is always closed |
| Camera.Camera.StartRecording | include/camera/camera.h:204-220 | updates the record as `Lifecycle.StartRecording` says, keeping the invariant; registering the first callback adds the bound handle's share |
| Camera.Camera.Negotiate | include/camera/camera.h:207-218 | the body past the guard, proved equal to `Lifecycle.Negotiate`, leaving the share count alone |
| Camera.Camera.StopRecording | include/camera/camera.h:222-224 | updates the record as `Lifecycle.StopRecording` says |
| Camera.Camera.FrameCallback | include/camera/camera.h:57-73 | the trampoline plus callback updates the record as `Lifecycle.Deliver` says |
| Camera.Camera.OnFrame | include/camera/camera.h:209-212 | the lambda updates the record as `Lifecycle.OnFrame` says |
| Camera.Camera.GetFrame | include/camera/camera.h:226-229 | returns and updates as `Lifecycle.GetFrame` says |
| Camera.Camera.Free | include/camera/camera.h:233-237 | updates the record as `Lifecycle.Free` says |
| Camera.Camera.Close | include/camera/camera.h:145 | the same teardown as `free` |
| Camera.Camera.Destroy | include/camera/camera.h:132 | record and share count change as `Lifecycle.Destroy` says |

## Left out

- Every libuvc call (`uvc_init`, `uvc_find_device`, `uvc_open`, `uvc_get_stream_ctrl_format_size`, `uvc_start_streaming`, `uvc_stop_streaming`, `uvc_close`, `uvc_unref_device`, `uvc_exit`) is foreign code. Each becomes the error code it returns, supplied by the caller, plus an entry in the ghost call log. A call is assumed to write its out-handle exactly when it returns `UVC_SUCCESS`.
- `process::error` is represented only by the ghost log of reported messages. `process::now` is the parameter `now`. Because `free` calls `stop_recording`, which reads the clock, `Free`, `Close` and `Destroy` take `now` too.
- The driver thread is not modelled. A frame arrival is an ordinary sequential call (`FrameCallback`, or `Arrive` in a sequence of operations), and the model has no concurrency between the driver thread and `get_frame`.
- Frame payloads are not modelled. `data` is an opaque address. The `memset`/`memcpy` byte copies are modelled as whole-value copies of the descriptor.
- `get_frame` returns a pointer into the shared record in the source. The model returns a copy of the slot at the moment of the call, so a later write through that pointer is not modelled.
- The reference count of `ptr_t` is an explicit `shares` field. `type::bind(this)` is taken to make one more reference to the record, held by the registered callback for as long as the record keeps the callback. A re-registration is taken to drop the old callback's share as it takes the new one. The internals of `ptr_t` and `type::bind` are not part of this model.
- `frame_t::type` is an `int` in the source; the model stores the native format itself. The conversions from `uvc_frame_t`'s unsigned width, height and byte count to `int`/`ulong` are not modelled.
- The descriptor getters `get_produc_id`, `get_vendor_id`, `get_device_product`, `get_device_manufacturer` and `get_device_serial` (include/camera/camera.h:149-199) are not modelled. Each only fetches a descriptor from the driver, reads one field and frees it.
- `camera::add` and `camera::scan` (include/camera/camera.h:243-276) are not modelled. They are device-enumeration plumbing outside the handle.
