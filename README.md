# UsbModule communication manager in Dafny

This project models the core of UsbModule, a Windows library that finds a USB
device through SetupApi and talks to it with overlapped file I/O. Three
pieces of the library are modelled:

- `UsbCommunicationManager`, in `communication_manager.dfy`. It opens a
  device path with one `CreateFile`. Its `Write` and `Read` use overlapped
  I/O and wait on an event for at most `Timeout` = 10000 ms when the operation
  is pending. `Read` then takes the result without waiting, so its wait is
  bounded. `Write` then calls `GetOverlappedResult` with `bWait = true`,
  which blocks until the write completes, so its wait is not bounded. `Read`
  uses a `BufferSize` = 4096-byte buffer. `Close`/`Dispose` release the
  handle at most once. `GetDevices` enumerates the interfaces of a device class into a map keyed
  by location name. It rebuilds each device's registry key from its path and
  reads the port metadata from the registry.
- `Win32Api.GetDeviceRegistryProperty`, in `win32_api.dfy`. It asks for the
  size, allocates a char buffer of that size, then fetches into it.
- `WinSpool.GetPrinters`, in `win_spool.dfy`. It runs the two-call
  `EnumPrinters` protocol and walks the returned records at a fixed stride.

Supporting modules:

- `win32.dfy` holds the shared types: `Option`, `Outcome`, `Exception` and
  `byte`. It also holds the Win32 literals `INVALID_HANDLE_VALUE` = -1 and
  `ERROR_IO_PENDING` = 997.
- `port_naming.dfy` builds the registry key and the port name. It also
  proves that the port number formatted with `00#` reads back.
- `device_enumeration.dfy` gives the specification of `GetDevices` as
  functions: `VisitInterface` handles one interface, and `Gather` is the loop.
  It also holds the lemmas about them.

Platform calls are not executed. Every platform call is an answer passed in
as a parameter. This covers SetupApi, kernel32, winspool, the registry,
`Marshal.GetLastWin32Error` and the event waits.

`GetHandle`, `Open`, `Write`, `Read`, `GetPrinters` and
`GetDeviceRegistryProperty` each return, as an ordinary out-parameter, the
platform calls they issued, in order. Their contracts state that sequence,
so "no retry", "waits only when pending" and "freed once, after decoding"
are stated outright. The other operations report less:

- `GetDevices` reports only the number of `SetupDiEnumDeviceInterfaces`
  calls and whether `SetupDiDestroyDeviceInfoList` was called. The detail,
  property and registry calls made for each interface are not listed.
- `Close` and `Dispose` return no calls. Each handle counts its releases in
  a ghost field instead, and the contracts state that count.

Behaviour of the code worth knowing:

- `Open` returns `null` for a null or empty path. A failed `CreateFile`
  still yields a manager, whose handle is invalid.
- `Write` ignores the result of `CancelIo`. A failed cancel is not an error.
- The empty-buffer check in `Write` comes after `CancelIo` has been issued.
- `GetDevices` keys its map by location name. A later device with the same
  location name overwrites an earlier one.
- An exception inside the enumeration loop ends the whole enumeration. The
  devices gathered so far are returned, and `SetupDiDestroyDeviceInfoList`
  is not called.

## Model

| member | source | states |
|---|---|---|
| `Win32Api.PropertyOutcome` | UsbModule/Win32/Win32Api.cs:26-44 | The result is "" exactly when the reported size is 0. A failed fetch throws `Win32Exception` with the last error. A successful fetch returns a string of exactly the reported size: the fetched characters, then NULs, with nothing trimmed. |
| `Win32Api.GetDeviceRegistryProperty` | UsbModule/Win32/Win32Api.cs:21-45 | The method yields `PropertyOutcome`. The first call passes a null buffer of size 0. A second call is made only when the size is positive, with a buffer of exactly that many chars and that size. |
| `WinSpool.GetPrinters` | UsbModule/Win32/Spool/WinSpool.cs:20-60 | If the sizing call succeeds, the result is an empty array. Any error other than 122 is thrown. Exactly `cbNeeded` bytes are allocated. A failed fetch returns an empty array without a free. On success there are `cReturned` records, and record i is decoded from `pAddr + i * 136` in increasing order. The exact call sequence is stated for every branch. |
| `WinSpool.BufferFreedOnceAfterDecoding` | UsbModule/Win32/Spool/WinSpool.cs:37-59 | On the success trace, `FreeHGlobal` happens exactly once, as the last call, after every decode. The failed-fetch trace holds no free. |
| `PortNaming.RegistryKey` | UsbModule/CommunicationManager.cs:150-152 | A key exists exactly when the path starts with `\\?\`. The key is `##?#` followed by `path[4..]`. It has the path's length, and swapping the prefix back gives the path. |
| `PortNaming.FormatPortRoundTrip` | UsbModule/CommunicationManager.cs:167-168 | `port:00#` gives at least three digits, with a leading `-` for negatives (the invariant culture's sign). It parses back to the same port number. |
| `DeviceEnumeration.PortNameReadsBack` | UsbModule/CommunicationManager.cs:167-168 | The port name `$"{baseName}{port:00#}"` ends in at least three characters of formatted port number, and that suffix parses back to the port. |
| `DeviceEnumeration.DescribeDeviceTolerant` | UsbModule/CommunicationManager.cs:146-177 | Every device is recorded with its path, whatever the registry answers. The port name is non-empty exactly when the description and the port number were both read, and it is then built from the base name and that port. Otherwise the port is 0. |
| `DeviceEnumeration.VisitAbortsIff` | UsbModule/CommunicationManager.cs:123-144 | An interface is skipped exactly when its size is 0 or over the 512-byte path room. It aborts the loop exactly when the size is accepted and then the detail fetch or the location lookup fails. Registry failures never abort. |
| `DeviceEnumeration.GatherStopsAtFirstAbort` | UsbModule/CommunicationManager.cs:117-185 | Indices are visited in order. The loop completes exactly when no interface aborts, and it then makes one more enumerator call than there are interfaces. Otherwise it stops right after the first aborting interface. |
| `DeviceEnumeration.GatherKeys` | UsbModule/CommunicationManager.cs:119-178 | A name is in the result exactly when some interface processed before any abort stored under it. |
| `DeviceEnumeration.GatherKeepsUnstored` | UsbModule/CommunicationManager.cs:119-178 | An entry that no later interface overwrites keeps its value. |
| `DeviceEnumeration.GatherLastWriteWins` | UsbModule/CommunicationManager.cs:177 | The value under a name is the one stored by the last processed interface with that location name. |
| `CommunicationManager.UsbCommunicationManager.GetDevices` | UsbModule/CommunicationManager.cs:94-188 | The result is the empty map when `SetupDiGetClassDevs` throws or returns -1. Then there are no enumerator calls and no destroy. Otherwise the devices, the number of enumerator calls and whether the list was destroyed are exactly those of `Gather`. It never throws. |
| `CommunicationManager.UsbCommunicationManager.GetHandle` | UsbModule/CommunicationManager.cs:283-298 | There is no handle and no call exactly when the path is null or empty. Otherwise there is one `CreateFile`: read and write access, read sharing, open-always, normal plus sequential-scan plus overlapped. Its result becomes the handle, valid or not. |
| `CommunicationManager.UsbCommunicationManager.Open` | UsbModule/CommunicationManager.cs:75-85 | The manager is null exactly when the path is null or empty. Otherwise it is a fresh manager holding the fresh, open handle from the single `CreateFile`. |
| `CommunicationManager.UsbCommunicationManager.Write` | UsbModule/CommunicationManager.cs:196-223 | A null `Handle` throws before any call. A null or empty buffer throws `Win32Exception` after `CancelIo`. Otherwise the result is true exactly when `GetOverlappedResult` succeeds with exactly `buffer.Length` bytes, so a partial transfer is false. The copy of the data is written, and the wait of `Timeout` happens only for a false return with error 997. |
| `CommunicationManager.UsbCommunicationManager.Read` | UsbModule/CommunicationManager.cs:229-256 | The read is issued with capacity 4096, and the wait happens only when pending. The result of `GetOverlappedResult` is ignored. The returned array has exactly the reported length, taken from the start of the zeroed buffer the device filled. A length over 4096 makes the copy throw. |
| `CommunicationManager.UsbCommunicationManager.Close` | UsbModule/CommunicationManager.cs:261-268 | On an open handle, it disposes the handle, releasing it once if valid, and sets `Handle` to null. On a null or closed handle it changes nothing. Afterwards nothing is left to release, so every later call is a no-op. |
| `CommunicationManager.UsbCommunicationManager.Dispose` | UsbModule/CommunicationManager.cs:273-276 | Same contract as `Close`. |
| `CommunicationManager.SafeFileHandle.Dispose` | UsbModule/CommunicationManager.cs:265 | It closes the handle and releases it only if it was open and valid. No handle is ever released twice. |

## Left out

- Platform calls are parameters, not code: SetupApi, kernel32 file I/O, winspool, the registry, `Marshal` and the `ManualResetEvent`/`AutoResetEvent` waits. P/Invoke declarations and struct, enum and constant files carry no logic. Only the literals the core uses are kept: -1, 997, 122, the `CreateFile` flags, and the struct sizes.
- Timing and concurrency are left out. A wait is only a recorded `WaitOne(10000)` call, and whether it was signalled or timed out is not modelled. The source ignores that outcome, and the answer of `GetOverlappedResult` stands for whatever the platform reports after it.
- Marshalling sizes are fixed constants. `Marshal.SizeOf(SpDeviceInterfaceDetailData) - 4` is 512 (256 UTF-16 characters), and `Marshal.SizeOf(PrinterInfo2)` is 136 (64-bit). `PrinterInfo2` keeps only a few of its fields. `PtrToStructure` is a function from address to record and never throws.
- The 32-bit and 64-bit pointer arithmetic in `GetPrinters` is the same in the model: addresses are unbounded integers.
- Casts of huge unsigned sizes are not modelled: `(int)size` in `GetDeviceRegistryProperty` and `(int)cbNeeded` in `GetPrinters`. A size of 2^31 or more would make the allocation throw, and the model allocates instead.
- Read: a reported length too large to allocate would throw `OutOfMemoryException` before the copy. The model reports `ArgumentException` for every length over 4096.
- GetDevices: `SetupDiEnumDeviceInterfaces` is modelled as succeeding for indices below the number of interface records and failing after them. An exception thrown by that call itself is not modelled.
- GetDevices: `DevicePath` is never null in the model. A null path would end the loop with a `NullReferenceException`, and the marshaller always produces a string.
- GetDevices: the registry is one lookup from the reconstructed key to an answer. The class GUID's `{B}` key text and the fixed `#\Device Parameters` subkey are folded into that lookup. A port number that is not an integer counts as missing.
- `string.StartsWith(..., OrdinalIgnoreCase)` is modelled as an exact prefix test. The characters of `\\?\` have no case variants.
- The `DeviceInfo` record follows the manager's use of it: path, port name, description and port. The two-field `DeviceInfo` struct file is not part of this model. Neither are the demo program, the table formatter or `NullClass`.
- Write: the model records the final `GetOverlappedResult(handle, true)` call and takes its answer as given. It does not bound how long that call blocks: after a timed-out `WaitOne(10000)` it waits until the write completes, possibly forever.
- FormatPort: the sign of a negative port is fixed to `-`, the invariant culture's sign. The source formats with the current culture, whose `NegativeSign` can be another character (U+2212 in some cultures). Non-negative ports, the ones devices report, format the same in every culture.
