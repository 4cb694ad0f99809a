/** Constants and machine integers shared by the model: osi/medefines.h, osi/meerror.h, osi/metypes.h,
    include/me_defines.h, include/me_types.h and common/medefines.h. */
module Defines {

  const TWO_32 := 0x1_0000_0000
  const TWO_64 := 0x1_0000_0000_0000_0000

  type int32 = x: int | -0x8000_0000 <= x < 0x8000_0000
  type uint64 = x: int | 0 <= x < TWO_64

  /** A pointer to memory this library never looks into, such as a driver context; 0 is the null pointer. */
  type Handle = nat
  const NULL: Handle := 0

  const ERRNO_SUCCESS := 0
  const ERRNO_INVALID_DEVICE := 1
  const ERRNO_INVALID_REF := 5
  const ERRNO_INVALID_FLAGS := 10
  const ERRNO_NOT_OPEN := 13
  const ERRNO_LOCKED := 19
  const ERRNO_START_THREAD := 25
  const ERRNO_USED := 28
  const ERRNO_INVALID_MIN_MAX := 30
  const ERRNO_NO_RANGE := 31
  const ERRNO_INVALID_LOCK := 34
  const ERRNO_INVALID_ACQ_START_TRIG_TYPE := 39
  const ERRNO_INVALID_SCAN_START_ARG := 45
  const ERRNO_INVALID_SCAN_STOP_TRIG_TYPE := 48
  const ERRNO_INVALID_SCAN_STOP_ARG := 49
  const ERRNO_INVALID_ACQ_STOP_TRIG_TYPE := 50
  const ERRNO_INVALID_ACQ_STOP_ARG := 51
  const ERRNO_DEVICE_UNPLUGGED := 57
  const ERRNO_INVALID_MODULE_TYPE := 64
  const ERRNO_INVALID_POINTER := 68
  const ERRNO_INTERNAL := 78
  const ERRNO_VALUE_OUT_OF_RANGE := 79
}
