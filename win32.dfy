/** Shared vocabulary of the model: optional values, the exceptions the
    modelled C# code throws, and the Win32 literals the core depends on. */
module Win32 {

  /** A value that may be absent: a C# `null` reference or a missing entry. */
  datatype Option<+T> = None | Some(value: T) {
    /** `x ?? default` */
    function GetOr(default: T): T {
      match this
      case Some(v) => v
      case None => default
    }
  }

  /** The exceptions the modelled code throws (or lets escape). */
  datatype Exception =
    | Win32Exception(nativeErrorCode: int)   // new Win32Exception(Marshal.GetLastWin32Error())
    | Win32ExceptionMessage(message: string) // new Win32Exception("...")
    | NullReferenceException                  // `x!.M()` on a null `x`
    | ArgumentException                       // Array.Copy with a length past the source array

  /** What a call does: returns a value or throws. */
  datatype Outcome<+T> = Returned(value: T) | Threw(exception: Exception)

  /** A C# `byte`. */
  type byte = b: int | 0 <= b < 256

  /** INVALID_HANDLE_VALUE (FileIO.InvalidHandleValue). */
  const InvalidHandleValue: int := -1

  /** ERROR_IO_PENDING (FileIO.ErrorIOPending). */
  const ErrorIOPending: int := 997

  /** IntPtr.Zero, the null pointer. */
  const NullPointer: int := 0
}
