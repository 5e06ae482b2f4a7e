/** UsbCommunicationManager: owns one device handle, writes and reads it with
    overlapped I/O (a read's wait is bounded by a timeout; a write, after its
    timed wait, blocks in GetOverlappedResult), closes it at most once, and
    enumerates the devices of an interface class. Every platform call is an
    answer passed in. GetHandle, Open, Write and Read return the platform
    calls they issued; GetDevices reports the number of enumerator calls and
    whether the device list was destroyed; Close and Dispose count releases
    in the handle's ghost field. */
module CommunicationManager {
  import opened Win32
  import opened Win32Api
  import opened PortNaming
  import opened DeviceEnumeration

  /** Milliseconds a write or read waits on its event for a pending
      operation; a write then still waits for completion without a bound. */
  const Timeout: int := 10000

  /** Size of the read buffer, `1 << 12`: one USB 1.1 write block. */
  const BufferSize: nat := 4096

  /** The message of the exception Write throws for empty data, in Korean
      ("empty data cannot be entered"). */
  const EmptyDataMessage: string := "빈 데이터를 입력할 수 없습니다."

  // CreateFile arguments (winnt.h / winbase.h values)
  const FileAccessWrite: bv32 := 0x4000_0000
  const FileAccessRead: bv32 := 0x8000_0000
  const FileShareRead: bv32 := 0x0000_0001
  const OpenAlways: bv32 := 4
  const FileAttributeNormal: bv32 := 0x0000_0080
  const FileFlagSequentialScan: bv32 := 0x0800_0000
  const FileFlagOverlapped: bv32 := 0x4000_0000

  datatype CreateFileRequest = CreateFileRequest(
    fileName: string, desiredAccess: bv32, shareMode: bv32, creationDisposition: bv32, flagsAndAttributes: bv32)

  /** The one CreateFile request GetHandle makes for a device path:
      read/write access, read sharing, open-always, sequential overlapped I/O. */
  function CreateFileArguments(path: string): CreateFileRequest
  {
    CreateFileRequest(path, FileAccessWrite | FileAccessRead, FileShareRead, OpenAlways,
      FileAttributeNormal | FileFlagSequentialScan | FileFlagOverlapped)
  }

  /** A platform call issued by the manager, in order. */
  datatype IoCall =
    | CreateFile(request: CreateFileRequest)
    | CancelIo(handle: int)
    | WriteFile(handle: int, bytes: seq<byte>, count: nat)
    | ReadFile(handle: int, capacity: nat)
    | WaitOne(timeoutMs: int)
    | GetOverlappedResult(handle: int, wait: bool)

  /** The platform's answers during one Write. */
  datatype WriteAnswer = WriteAnswer(
    writeSucceeds: bool,   // WriteFile's return value
    lastError: int,        // Marshal.GetLastWin32Error() when it returned false
    resultSucceeds: bool,  // GetOverlappedResult's return value
    transferred: nat)      // its transferred byte count

  /** The platform's answers during one Read. */
  datatype ReadAnswer = ReadAnswer(
    readSucceeds: bool,    // ReadFile's return value
    lastError: int,        // Marshal.GetLastWin32Error() when it returned false
    data: seq<byte>,       // bytes the device stores from the start of the read buffer
    resultSucceeds: bool,  // GetOverlappedResult's return value (not used by Read)
    readLength: nat)       // its transferred byte count

  /** An issue call that returned false with ERROR_IO_PENDING: only then is
      the event waited on. */
  predicate Pending(issued: bool, lastError: int)
  {
    !issued && lastError == ErrorIOPending
  }

  /** The wait step: present only for a pending operation. */
  function WaitCalls(issued: bool, lastError: int): seq<IoCall>
  {
    if Pending(issued, lastError) then [WaitOne(Timeout)] else []
  }

  /** `string.IsNullOrEmpty`. */
  predicate IsNullOrEmpty(s: Option<string>)
  {
    s.None? || s.value == ""
  }

  /** The platform's answer to SetupDiGetClassDevs. */
  datatype ClassDevsAnswer = ClassDevsThrew | ClassDevs(handle: int)

  /** The call threw or returned INVALID_HANDLE_VALUE. */
  predicate AcquireFailed(a: ClassDevsAnswer)
  {
    a.ClassDevsThrew? || a.handle == InvalidHandleValue
  }

  /** A SafeFileHandle over an OS handle value. `Releases` counts the
      CloseHandle calls made for it. */
  class SafeFileHandle {
    const Raw: int
    var IsClosed: bool
    ghost var Releases: nat

    /** SafeHandleZeroOrMinusOneIsInvalid.IsInvalid. */
    predicate IsInvalid()
    {
      Raw == 0 || Raw == InvalidHandleValue
    }

    /** An open handle has not been released; an invalid one never is; none
        is released twice. */
    ghost predicate Valid()
      reads this
    {
      Releases <= 1 && (!IsClosed ==> Releases == 0) && (IsInvalid() ==> Releases == 0)
    }

    constructor (raw: int)
      ensures Raw == raw && !IsClosed && Releases == 0 && Valid()
    {
      Raw := raw;
      IsClosed := false;
      Releases := 0;
    }

    /** Marks the handle closed, releasing it only if it was open and valid. */
    method Dispose()
      requires Valid()
      modifies this
      ensures Valid() && IsClosed
      ensures Releases == if old(IsClosed) || IsInvalid() then old(Releases) else old(Releases) + 1
    {
      if !IsClosed {
        IsClosed := true;
        if !IsInvalid() {
          Releases := Releases + 1;
        }
      }
    }
  }

  class UsbCommunicationManager {
    var Handle: SafeFileHandle?

    ghost predicate Valid()
      reads this, Handle
    {
      Handle != null ==> Handle.Valid()
    }

    /** Nothing is left to release. */
    ghost predicate Closed()
      reads this, Handle
    {
      Handle == null || Handle.IsClosed
    }

    constructor (handle: SafeFileHandle)
      ensures Handle == handle
    {
      Handle := handle;
    }

    /** No handle for a null or empty path, and no platform call; otherwise
        exactly one CreateFile, whose result becomes the handle as it is,
        valid or not. */
    static method GetHandle(deviceInfo: DeviceInfo, createFile: int)
      returns (handle: SafeFileHandle?, calls: seq<IoCall>)
      ensures handle == null <==> IsNullOrEmpty(deviceInfo.path)
      ensures calls == if IsNullOrEmpty(deviceInfo.path) then []
                       else [CreateFile(CreateFileArguments(deviceInfo.path.value))]
      ensures handle != null ==>
        fresh(handle) && handle.Valid() && handle.Raw == createFile && !handle.IsClosed && handle.Releases == 0
    {
      if IsNullOrEmpty(deviceInfo.path) {
        return null, [];
      }
      calls := [CreateFile(CreateFileArguments(deviceInfo.path.value))];
      handle := new SafeFileHandle(createFile);
    }

    /** A manager exactly when the path is neither null nor empty, holding the
        handle of the single CreateFile attempt. */
    static method Open(deviceInfo: DeviceInfo, createFile: int)
      returns (manager: UsbCommunicationManager?, calls: seq<IoCall>)
      ensures manager == null <==> IsNullOrEmpty(deviceInfo.path)
      ensures calls == if IsNullOrEmpty(deviceInfo.path) then []
                       else [CreateFile(CreateFileArguments(deviceInfo.path.value))]
      ensures manager != null ==>
        fresh(manager) && fresh(manager.Handle) && manager.Valid() && manager.Handle != null &&
        manager.Handle.Raw == createFile && !manager.Handle.IsClosed && manager.Handle.Releases == 0
    {
      var handle;
      handle, calls := GetHandle(deviceInfo, createFile);
      if handle == null {
        return null, calls;
      }
      manager := new UsbCommunicationManager(handle);
    }

    /** Cancels pending I/O (ignoring the result), rejects null or empty
        data, writes a private copy of the data, waits up to Timeout only
        when the write is pending, and succeeds exactly when the overlapped
        result succeeds with every byte transferred. */
    method Write(buffer: array?<byte>, answer: WriteAnswer) returns (r: Outcome<bool>, calls: seq<IoCall>)
      ensures Handle == null ==> r == Threw(NullReferenceException) && calls == []
      ensures Handle != null && (buffer == null || buffer.Length == 0) ==>
        r == Threw(Win32ExceptionMessage(EmptyDataMessage)) && calls == [CancelIo(Handle.Raw)]
      ensures Handle != null && buffer != null && buffer.Length > 0 ==>
        r.Returned? &&
        (r.value <==> answer.resultSucceeds && answer.transferred == buffer.Length) &&
        calls == [CancelIo(Handle.Raw), WriteFile(Handle.Raw, buffer[..], buffer.Length)]
                 + WaitCalls(answer.writeSucceeds, answer.lastError)
                 + [GetOverlappedResult(Handle.Raw, true)]
    {
      calls := [];
      if Handle == null {
        return Threw(NullReferenceException), calls;
      }
      var handle := Handle.Raw;
      calls := calls + [CancelIo(handle)];
      if buffer == null || buffer.Length == 0 {
        return Threw(Win32ExceptionMessage(EmptyDataMessage)), calls;
      }
      var bytes := new byte[buffer.Length];
      forall i | 0 <= i < buffer.Length {
        bytes[i] := buffer[i];
      }
      assert bytes[..] == buffer[..];
      calls := calls + [WriteFile(handle, bytes[..], bytes.Length)];
      if !answer.writeSucceeds && answer.lastError == ErrorIOPending {
        calls := calls + [WaitOne(Timeout)];
      }
      calls := calls + [GetOverlappedResult(handle, true)];
      var size := answer.transferred;
      r := Returned(answer.resultSucceeds && size == buffer.Length);
    }

    /** The read call: the device stores its bytes from the start of the
        buffer, as many as fit. */
    static method FillReadBuffer(readBuffer: array<byte>, data: seq<byte>)
      modifies readBuffer
      ensures forall i :: 0 <= i < readBuffer.Length ==>
        readBuffer[i] == if i < |data| then data[i] else old(readBuffer[i])
    {
      forall i | 0 <= i < readBuffer.Length && i < |data| {
        readBuffer[i] := data[i];
      }
    }

    /** Reads into a zeroed 4096-byte buffer, waits up to Timeout only when
        the read is pending, and returns exactly the reported number of bytes
        from the start of that buffer; a count past the buffer makes the copy
        throw. */
    method Read(answer: ReadAnswer) returns (r: Outcome<array<byte>>, calls: seq<IoCall>)
      ensures Handle == null ==> r == Threw(NullReferenceException) && calls == []
      ensures Handle != null ==>
        calls == [ReadFile(Handle.Raw, BufferSize)] + WaitCalls(answer.readSucceeds, answer.lastError)
                 + [GetOverlappedResult(Handle.Raw, false)]
      ensures Handle != null && answer.readLength > BufferSize ==> r == Threw(ArgumentException)
      ensures Handle != null && answer.readLength <= BufferSize ==>
        r.Returned? && r.value.Length == answer.readLength &&
        forall i :: 0 <= i < answer.readLength ==>
          r.value[i] == if i < |answer.data| then answer.data[i] else 0
    {
      calls := [];
      if Handle == null {
        return Threw(NullReferenceException), calls;
      }
      var handle := Handle.Raw;
      var readBuffer := new byte[BufferSize];
      forall i | 0 <= i < readBuffer.Length {
        readBuffer[i] := 0;
      }
      calls := calls + [ReadFile(handle, BufferSize)];
      FillReadBuffer(readBuffer, answer.data);
      if !answer.readSucceeds && answer.lastError == ErrorIOPending {
        calls := calls + [WaitOne(Timeout)];
      }
      calls := calls + [GetOverlappedResult(handle, false)];
      var readLength := answer.readLength;
      var readData := new byte[readLength];
      if readLength > readBuffer.Length {
        return Threw(ArgumentException), calls;
      }
      forall i | 0 <= i < readLength {
        readData[i] := readBuffer[i];
      }
      r := Returned(readData);
    }

    /** The first call on an open handle disposes it (releasing it once if
        it is valid) and forgets it; on a missing or already closed handle it
        changes nothing. Afterwards nothing is left to release, so a second
        call is always a no-op. */
    method Close()
      requires Valid()
      modifies this, Handle
      ensures Valid() && Closed()
      ensures old(Handle) != null && !old(Handle.IsClosed) ==>
        Handle == null && old(Handle).IsClosed &&
        old(Handle).Releases == old(Handle.Releases) + (if old(Handle).IsInvalid() then 0 else 1)
      ensures old(Handle) == null || old(Handle.IsClosed) ==>
        Handle == old(Handle) && (Handle != null ==> unchanged(Handle))
    {
      if Handle != null && !Handle.IsClosed {
        Handle.Dispose();
        Handle := null;
      }
    }

    /** `using` scope exit: the same as Close. */
    method Dispose()
      requires Valid()
      modifies this, Handle
      ensures Valid() && Closed()
      ensures old(Handle) != null && !old(Handle.IsClosed) ==>
        Handle == null && old(Handle).IsClosed &&
        old(Handle).Releases == old(Handle.Releases) + (if old(Handle).IsInvalid() then 0 else 1)
      ensures old(Handle) == null || old(Handle.IsClosed) ==>
        Handle == old(Handle) && (Handle != null ==> unchanged(Handle))
    {
      Close();
    }

    /** Enumerates the interfaces of the class by index from 0 until the
        enumerator reports no more, and returns the map GetDevices builds:
        empty when the device list cannot be acquired, otherwise the fold of
        Gather. An exception inside the loop ends it, keeps what was gathered
        and skips SetupDiDestroyDeviceInfoList. */
    static method GetDevices(classDevs: ClassDevsAnswer, interfaces: seq<InterfaceRecord>,
                             registry: string -> RegistryAnswer)
      returns (devices: map<string, DeviceInfo>, enumCalls: nat, destroyed: bool)
      ensures AcquireFailed(classDevs) ==> devices == map[] && enumCalls == 0 && !destroyed
      ensures !AcquireFailed(classDevs) ==>
        Enumeration(devices, enumCalls, destroyed) == Gather(interfaces, registry, 0, map[])
    {
      devices, enumCalls, destroyed := map[], 0, false;
      var device := if classDevs.ClassDevsThrew? then InvalidHandleValue else classDevs.handle;
      if device == InvalidHandleValue {
        return;
      }
      var deviceIndex: nat := 0;
      while true
        invariant deviceIndex <= |interfaces| && enumCalls == deviceIndex
        invariant Gather(interfaces, registry, deviceIndex, devices) == Gather(interfaces, registry, 0, map[])
        decreases |interfaces| - deviceIndex
      {
        enumCalls := enumCalls + 1;
        if deviceIndex == |interfaces| {
          break;
        }
        var rec := interfaces[deviceIndex];
        deviceIndex := deviceIndex + 1;

        var size := rec.requiredSize;
        if size == 0 || size > DetailPathCapacity {
          continue;
        }
        if !rec.detailSucceeds {
          return;
        }
        var path := rec.devicePath;
        var name, _ := GetDeviceRegistryProperty(rec.location);
        if name.Threw? {
          return;
        }

        var portName, desc, port := "", "", 0;
        if HasDevicePathPrefix(path) {
          var key := RegistryKeyPrefix + path[4..];
          match registry(key) {
            case Parameters(values) =>
              if values.description.Some? {
                desc := values.description.value;
                if values.portNumber.Some? {
                  port := values.portNumber.value;
                  portName := PortName(values.baseName, port);
                }
              }
            case _ =>
          }
        }
        assert DeviceInfo(Some(path), portName, desc, port) == DescribeDevice(path, registry);
        devices := devices[name.value := DeviceInfo(Some(path), portName, desc, port)];
      }
      destroyed := true;
    }
  }
}
