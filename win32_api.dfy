/** Win32Api.GetDeviceRegistryProperty: the two-call "ask the size, then
    fetch" protocol of SetupDiGetDeviceRegistryProperty, returning the
    property as a string. */
module Win32Api {
  import opened Win32

  /** The platform's answers to the two SetupDiGetDeviceRegistryProperty calls. */
  datatype PropertyOracle = PropertyOracle(
    requiredSize: nat,    // `out size` of the sizing call (null buffer, size 0)
    fetchSucceeds: bool,  // return value of the fetching call
    written: seq<char>,   // characters the fetching call stores from the start of the buffer
    lastError: int)       // Marshal.GetLastWin32Error() after a failed fetch

  /** One SetupDiGetDeviceRegistryProperty call as issued: the length of the
      buffer passed (None for `null`) and the buffer size argument. */
  datatype PropertyCall = PropertyCall(buffer: Option<nat>, bufferSize: nat)

  /** The sizing call: a null buffer of size 0. */
  const SizingCall := PropertyCall(None, 0)

  /** A zeroed `char[size]` after the platform stored `written` at its start
      (as much of it as fits). */
  function FilledBuffer(size: nat, written: seq<char>): (s: seq<char>)
    ensures |s| == size
  {
    seq(size, i requires 0 <= i < size => if i < |written| then written[i] else '\0')
  }

  /** What GetDeviceRegistryProperty returns or throws for the given answers. */
  function PropertyOutcome(o: PropertyOracle): (r: Outcome<string>)
    ensures r == Returned("") <==> o.requiredSize == 0
    ensures o.requiredSize > 0 && !o.fetchSucceeds ==> r == Threw(Win32Exception(o.lastError))
    ensures o.requiredSize > 0 && o.fetchSucceeds ==>
      r.Returned? && |r.value| == o.requiredSize &&
      (forall i :: 0 <= i < |o.written| && i < o.requiredSize ==> r.value[i] == o.written[i]) &&
      (forall i :: |o.written| <= i < o.requiredSize ==> r.value[i] == '\0')
  {
    if o.requiredSize <= 0 then Returned("")
    else if !o.fetchSucceeds then Threw(Win32Exception(o.lastError))
    else Returned(FilledBuffer(o.requiredSize, o.written))
  }

  /** The fetching call: SetupDiGetDeviceRegistryProperty stores the property
      into `buffer` and reports success. */
  method FetchProperty(buffer: array<char>, o: PropertyOracle) returns (isSuccess: bool)
    modifies buffer
    ensures isSuccess == o.fetchSucceeds
    ensures isSuccess ==> forall i :: 0 <= i < buffer.Length ==>
      buffer[i] == if i < |o.written| then o.written[i] else old(buffer[i])
  {
    isSuccess := o.fetchSucceeds;
    if isSuccess {
      forall i | 0 <= i < buffer.Length && i < |o.written| {
        buffer[i] := o.written[i];
      }
    }
  }

  /** Asks for the required size with a null buffer; returns "" when it is
      not positive, otherwise fetches into a buffer of exactly that many
      chars and returns all of them (trailing NULs included), or throws
      the last Win32 error when the fetch fails. */
  method GetDeviceRegistryProperty(o: PropertyOracle) returns (r: Outcome<string>, calls: seq<PropertyCall>)
    ensures r == PropertyOutcome(o)
    ensures calls == if o.requiredSize == 0 then [SizingCall]
                     else [SizingCall, PropertyCall(Some(o.requiredSize), o.requiredSize)]
  {
    calls := [SizingCall];
    var size := o.requiredSize;
    if size <= 0 {
      return Returned(""), calls;
    }
    var buffer := new char[size](_ => '\0');
    calls := calls + [PropertyCall(Some(buffer.Length), size)];
    var isSuccess := FetchProperty(buffer, o);
    if !isSuccess {
      return Threw(Win32Exception(o.lastError)), calls;
    }
    r := Returned(buffer[..]);
    assert buffer[..] == FilledBuffer(size, o.written);
  }
}
