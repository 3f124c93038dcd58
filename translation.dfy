/**
  The handle's two translation tables: driver error codes to the message
  `errno` stores on the handle, and the camera's own frame-format enumeration
  to the driver's native format codes (`get_type`). Each table comes with its
  inverse, and the inverse is what states that the table loses nothing.
 */
module Translation {
  import opened Wrappers
  import opened Uvc

  // ---------------------------------------------------------------------------
  // Error translation

  /** Whether `e` is one of the twelve driver codes that `errno` turns into a message. */
  predicate Translated(e: UvcError)
  {
    || e == ErrorIo || e == ErrorInvalidParam || e == ErrorAccess || e == ErrorNoDevice
    || e == ErrorNotFound || e == ErrorBusy || e == ErrorTimeout || e == ErrorNoMem
    || e == ErrorNotSupported || e == ErrorInvalidDevice || e == ErrorInvalidMode
    || e == ErrorOther
  }

  /**
    The text `errno` leaves in the handle's error field for code `e`; the
    empty string stands for a cleared field. Only the twelve listed codes
    record a message, and the message identifies its code.
   */
  function ErrorMessage(e: UvcError): (m: string)
    ensures m != "" <==> Translated(e)
  {
    match e
    case ErrorIo            => "Input/output error"
    case ErrorInvalidParam  => "Invalid Parameter"
    case ErrorAccess        => "Access denied"
    case ErrorNoDevice      => "No such device"
    case ErrorNotFound      => "Entity not found"
    case ErrorBusy          => "Resource busy"
    case ErrorTimeout       => "Operation timed out"
    case ErrorNoMem         => "Insufficient memory"
    case ErrorNotSupported  => "Operation not supported"
    case ErrorInvalidDevice => "Device not supported"
    case ErrorInvalidMode   => "Mode not supported"
    case ErrorOther         => "something went wrong"
    case _                  => ""
  }

  /** The code whose message is `m`, if any: the inverse of ErrorMessage. */
  function MessageCode(m: string): (r: Option<UvcError>)
  {
    if m == "Input/output error" then Some(ErrorIo)
    else if m == "Invalid Parameter" then Some(ErrorInvalidParam)
    else if m == "Access denied" then Some(ErrorAccess)
    else if m == "No such device" then Some(ErrorNoDevice)
    else if m == "Entity not found" then Some(ErrorNotFound)
    else if m == "Resource busy" then Some(ErrorBusy)
    else if m == "Operation timed out" then Some(ErrorTimeout)
    else if m == "Insufficient memory" then Some(ErrorNoMem)
    else if m == "Operation not supported" then Some(ErrorNotSupported)
    else if m == "Device not supported" then Some(ErrorInvalidDevice)
    else if m == "Mode not supported" then Some(ErrorInvalidMode)
    else if m == "something went wrong" then Some(ErrorOther)
    else None
  }

  /** Every recorded message identifies the code it was recorded for. */
  lemma ErrorMessageRoundTrip(e: UvcError)
    ensures Translated(e) ==> MessageCode(ErrorMessage(e)) == Some(e)
    ensures !Translated(e) ==> MessageCode(ErrorMessage(e)) == None
  {
  }

  /** Distinct listed codes never share a message. */
  lemma ErrorMessagesDistinct(a: UvcError, b: UvcError)
    requires Translated(a) && Translated(b) && a != b
    ensures ErrorMessage(a) != ErrorMessage(b)
  {
    ErrorMessageRoundTrip(a);
    ErrorMessageRoundTrip(b);
  }

  // ---------------------------------------------------------------------------
  // Format translation

  /** The camera's frame-format enumeration (`FORMAT_ANY` is also 0). */
  const FORMAT_UNKNOWN: uint32 := 0
  const FORMAT_UNCOMPRESSED: uint32 := 1
  const FORMAT_COMPRESSED: uint32 := 2
  const FORMAT_YUYV: uint32 := 3
  const FORMAT_UYVY: uint32 := 4
  const FORMAT_RGB: uint32 := 5
  const FORMAT_BGR: uint32 := 6
  const FORMAT_MJPEG: uint32 := 7
  const FORMAT_H264: uint32 := 8
  const FORMAT_GRAY8: uint32 := 9
  const FORMAT_GRAY16: uint32 := 10
  const FORMAT_BY8: uint32 := 11
  const FORMAT_BA81: uint32 := 12
  const FORMAT_SGRBG8: uint32 := 13
  const FORMAT_SGBRG8: uint32 := 14
  const FORMAT_SRGGB8: uint32 := 15
  const FORMAT_SBGGR8: uint32 := 16
  const FORMAT_NV12: uint32 := 17
  const FORMAT_P010: uint32 := 18
  const FORMAT_COUNT: uint32 := 19

  /** The value of the camera enumeration entry named like native format `u`. */
  function FormatValue(u: UvcFrameFormat): (v: uint32)
    ensures v <= FORMAT_COUNT
  {
    match u
    case FrameAny          => FORMAT_UNKNOWN
    case FrameUncompressed => FORMAT_UNCOMPRESSED
    case FrameCompressed   => FORMAT_COMPRESSED
    case FrameYuyv         => FORMAT_YUYV
    case FrameUyvy         => FORMAT_UYVY
    case FrameRgb          => FORMAT_RGB
    case FrameBgr          => FORMAT_BGR
    case FrameMjpeg        => FORMAT_MJPEG
    case FrameH264         => FORMAT_H264
    case FrameGray8        => FORMAT_GRAY8
    case FrameGray16       => FORMAT_GRAY16
    case FrameBy8          => FORMAT_BY8
    case FrameBa81         => FORMAT_BA81
    case FrameSgrbg8       => FORMAT_SGRBG8
    case FrameSgbrg8       => FORMAT_SGBRG8
    case FrameSrggb8       => FORMAT_SRGGB8
    case FrameSbggr8       => FORMAT_SBGGR8
    case FrameNv12         => FORMAT_NV12
    case FrameP010         => FORMAT_P010
    case FrameCount        => FORMAT_COUNT
  }

  /**
    `get_type`: the native code for camera format `t`. Every entry of the
    enumeration maps to the native format of the same name, and every value
    outside it falls back to the "any" format.
   */
  function GetType(t: uint32): (r: UvcFrameFormat)
    ensures t <= FORMAT_COUNT ==> FormatValue(r) == t
    ensures t > FORMAT_COUNT ==> r == FrameAny
  {
    if t == FORMAT_UNCOMPRESSED then FrameUncompressed
    else if t == FORMAT_COMPRESSED then FrameCompressed
    else if t == FORMAT_UNKNOWN then FrameAny
    else if t == FORMAT_SGRBG8 then FrameSgrbg8
    else if t == FORMAT_SGBRG8 then FrameSgbrg8
    else if t == FORMAT_SRGGB8 then FrameSrggb8
    else if t == FORMAT_SBGGR8 then FrameSbggr8
    else if t == FORMAT_GRAY16 then FrameGray16
    else if t == FORMAT_GRAY8 then FrameGray8
    else if t == FORMAT_MJPEG then FrameMjpeg
    else if t == FORMAT_COUNT then FrameCount
    else if t == FORMAT_YUYV then FrameYuyv
    else if t == FORMAT_UYVY then FrameUyvy
    else if t == FORMAT_H264 then FrameH264
    else if t == FORMAT_BA81 then FrameBa81
    else if t == FORMAT_NV12 then FrameNv12
    else if t == FORMAT_P010 then FrameP010
    else if t == FORMAT_RGB then FrameRgb
    else if t == FORMAT_BGR then FrameBgr
    else if t == FORMAT_BY8 then FrameBy8
    else FrameAny
  }

  /** The translation reaches every native format: it is onto. */
  lemma GetTypeOnto(u: UvcFrameFormat)
    ensures GetType(FormatValue(u)) == u
  {
  }

  /** Distinct entries of the enumeration map to distinct native codes. */
  lemma GetTypeInjective(a: uint32, b: uint32)
    requires a <= FORMAT_COUNT && b <= FORMAT_COUNT && a != b
    ensures GetType(a) != GetType(b)
  {
    assert FormatValue(GetType(a)) == a;
    assert FormatValue(GetType(b)) == b;
  }

  /**
    The conversion C++ applies when `start_recording` passes its `int`
    format to `get_type`'s `uint` parameter: the uint32 with the same bits.
   */
  function ToUint32(x: int32): (r: uint32)
    ensures r % TWO_32 == x % TWO_32
  {
    if x < 0 then x + TWO_32 else x
  }

  /** A negative format requested from `start_recording` means "any". */
  lemma NegativeFormatIsAny(x: int32)
    requires x < 0
    ensures GetType(ToUint32(x)) == FrameAny
  {
  }
}
