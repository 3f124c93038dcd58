/**
  The part of the libuvc driver interface that the camera handle consumes:
  the machine integer types it passes around, the driver's error codes, its
  native frame formats, the frames it delivers and one log entry per driver
  call. The driver itself is not modelled: every call into it becomes an
  error code chosen by the caller of the model.
 */
module Uvc {
  import opened Wrappers

  const TWO_16: int := 0x1_0000
  const TWO_32: int := 0x1_0000_0000
  const TWO_64: int := 0x1_0000_0000_0000_0000

  type uint16 = x: int | 0 <= x < TWO_16
  type uint32 = x: int | 0 <= x < TWO_32
  type int32 = x: int | -0x8000_0000 <= x < 0x8000_0000
  /** `ulong`, the type of the liveness timestamp and of the process clock. */
  type uint64 = x: int | 0 <= x < TWO_64

  /** The address held by a raw pointer; the model never looks behind it. */
  type Address = nat

  /** libuvc's `uvc_error` codes, `UVC_SUCCESS` included. */
  datatype UvcError =
    | Success
    | ErrorIo
    | ErrorInvalidParam
    | ErrorAccess
    | ErrorNoDevice
    | ErrorNotFound
    | ErrorBusy
    | ErrorTimeout
    | ErrorOverflow
    | ErrorPipe
    | ErrorInterrupted
    | ErrorNoMem
    | ErrorNotSupported
    | ErrorInvalidDevice
    | ErrorInvalidMode
    | ErrorCallbackExists
    | ErrorOther

  /**
    libuvc's `uvc_frame_format`. libuvc declares `UVC_FRAME_FORMAT_UNKNOWN`
    and `UVC_FRAME_FORMAT_ANY` with the same value, so both are `FrameAny`.
   */
  datatype UvcFrameFormat =
    | FrameAny
    | FrameUncompressed
    | FrameCompressed
    | FrameYuyv
    | FrameUyvy
    | FrameRgb
    | FrameBgr
    | FrameMjpeg
    | FrameH264
    | FrameGray8
    | FrameGray16
    | FrameBy8
    | FrameBa81
    | FrameSgrbg8
    | FrameSgbrg8
    | FrameSrggb8
    | FrameSbggr8
    | FrameNv12
    | FrameP010
    | FrameCount

  /** The fields of libuvc's `uvc_frame_t` that the frame callback reads. */
  datatype UvcFrame = UvcFrame(
    frameFormat: UvcFrameFormat,
    dataBytes: nat,
    width: int,
    height: int,
    data: Address)

  /** One call into the driver, as the handle makes it. */
  datatype DriverCall =
    | Init                                                   // uvc_init
    | FindDevice(vid: uint16, pid: uint16, serial: Option<string>) // uvc_find_device
    | OpenDevice                                             // uvc_open
    | GetStreamCtrl(format: UvcFrameFormat, width: int, height: int, fps: int)
                                                             // uvc_get_stream_ctrl_format_size
    | StartStreaming                                         // uvc_start_streaming
    | StopStreaming                                          // uvc_stop_streaming
    | CloseDevice                                            // uvc_close
    | UnrefDevice                                            // uvc_unref_device
    | Exit                                                   // uvc_exit
}
