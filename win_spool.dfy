/** WinSpool.GetPrinters: the two-call EnumPrinters protocol (ask the size,
    allocate, fetch) and the fixed-stride walk over the returned records. */
module WinSpool {
  import opened Win32

  /** ERROR_INSUFFICIENT_BUFFER. */
  const ErrorInsufficientBuffer: int := 122

  /** Marshal.SizeOf(typeof(PrinterInfo2)): 13 pointers and 8 DWORDs on a
      64-bit platform. Platform dependent; the model only needs it positive. */
  const PrinterInfo2Size: nat := 136

  /** PRINTER_INFO_2, reduced to the fields a caller reads. */
  datatype PrinterInfo2 = PrinterInfo2(
    serverName: string, printerName: string, shareName: string, portName: string,
    driverName: string, attributes: int, status: int, jobs: int)

  /** The platform's answer to one EnumPrinters call. */
  datatype EnumPrintersAnswer = EnumPrintersAnswer(
    succeeds: bool,  // return value
    cbNeeded: nat,   // `ref pcbNeeded` afterwards
    cReturned: nat,  // `ref pcReturned` afterwards
    lastError: int)  // Marshal.GetLastWin32Error() afterwards

  /** A foreign call issued by GetPrinters, in order. */
  datatype SpoolCall =
    | EnumPrinters(buffer: int, cbBuf: nat)  // level 2
    | AllocHGlobal(bytes: int)
    | PtrToStructure(address: int)
    | FreeHGlobal(address: int)

  /** The first call: a null buffer of size 0. */
  const SizingCall := EnumPrinters(NullPointer, 0)

  /** The decoding calls of the walk over `count` records starting at `base`. */
  function Walk(base: int, count: nat): (w: seq<SpoolCall>)
    ensures |w| == count
  {
    seq(count, i requires 0 <= i < count => PtrToStructure(base + i * PrinterInfo2Size))
  }

  /** Number of FreeHGlobal calls in a trace. */
  function Frees(calls: seq<SpoolCall>): nat
  {
    if calls == [] then 0
    else (if calls[0].FreeHGlobal? then 1 else 0) + Frees(calls[1..])
  }

  lemma {:induction false} FreesOfConcat(a: seq<SpoolCall>, b: seq<SpoolCall>)
    ensures Frees(a + b) == Frees(a) + Frees(b)
  {
    if a == [] {
      assert a + b == b;
    } else {
      assert (a + b)[1..] == a[1..] + b;
      FreesOfConcat(a[1..], b);
    }
  }

  lemma {:induction false} NoFrees(calls: seq<SpoolCall>)
    requires forall k :: 0 <= k < |calls| ==> !calls[k].FreeHGlobal?
    ensures Frees(calls) == 0
  {
    if calls != [] {
      NoFrees(calls[1..]);
    }
  }

  /** The trace of a successful GetPrinters: size query, allocation of exactly
      `cbNeeded` bytes, fetch into that buffer, one decode per record, free. */
  function SuccessTrace(pAddr: int, cbNeeded: nat, cReturned: nat): seq<SpoolCall>
  {
    [SizingCall, AllocHGlobal(cbNeeded), EnumPrinters(pAddr, cbNeeded)]
      + Walk(pAddr, cReturned) + [FreeHGlobal(pAddr)]
  }

  /** On the success path the buffer is freed exactly once, as the last call,
      so after every record has been decoded; on the failed-fetch path it is
      never freed. */
  lemma BufferFreedOnceAfterDecoding(pAddr: int, cbNeeded: nat, cReturned: nat)
    ensures var t := SuccessTrace(pAddr, cbNeeded, cReturned);
      Frees(t) == 1 && t[|t| - 1] == FreeHGlobal(pAddr) &&
      forall k :: 0 <= k < |t| - 1 ==> !t[k].FreeHGlobal?
    ensures Frees([SizingCall, AllocHGlobal(cbNeeded), EnumPrinters(pAddr, cbNeeded)]) == 0
  {
    var head := [SizingCall, AllocHGlobal(cbNeeded), EnumPrinters(pAddr, cbNeeded)];
    NoFrees(head);
    NoFrees(Walk(pAddr, cReturned));
    FreesOfConcat(head, Walk(pAddr, cReturned));
    FreesOfConcat(head + Walk(pAddr, cReturned), [FreeHGlobal(pAddr)]);
    assert Frees([FreeHGlobal(pAddr)]) == 1 by {
      assert [FreeHGlobal(pAddr)][1..] == [];
    }
  }

  /** Lists the printers: when the sizing call already succeeds there is
      nothing to list; a failure other than ERROR_INSUFFICIENT_BUFFER is
      thrown; a failed fetch yields an empty array (without freeing the
      buffer); otherwise record i is decoded from pAddr + i * stride. */
  method GetPrinters(first: EnumPrintersAnswer, pAddr: int, second: EnumPrintersAnswer,
                     memory: int -> PrinterInfo2)
    returns (r: Outcome<array<PrinterInfo2>>, calls: seq<SpoolCall>)
    ensures first.succeeds ==> r.Returned? && r.value.Length == 0 && calls == [SizingCall]
    ensures !first.succeeds && first.lastError != ErrorInsufficientBuffer ==>
      r == Threw(Win32Exception(first.lastError)) && calls == [SizingCall]
    ensures !first.succeeds && first.lastError == ErrorInsufficientBuffer && !second.succeeds ==>
      r.Returned? && r.value.Length == 0 &&
      calls == [SizingCall, AllocHGlobal(first.cbNeeded), EnumPrinters(pAddr, first.cbNeeded)]
    ensures !first.succeeds && first.lastError == ErrorInsufficientBuffer && second.succeeds ==>
      r.Returned? && r.value.Length == second.cReturned &&
      (forall i :: 0 <= i < second.cReturned ==> r.value[i] == memory(pAddr + i * PrinterInfo2Size)) &&
      calls == SuccessTrace(pAddr, first.cbNeeded, second.cReturned)
  {
    calls := [SizingCall];
    if first.succeeds {
      var empty := new PrinterInfo2[0];
      return Returned(empty), calls;
    }
    var lastWin32Error := first.lastError;
    if lastWin32Error != ErrorInsufficientBuffer {
      return Threw(Win32Exception(lastWin32Error)), calls;
    }
    var cbNeeded := first.cbNeeded;
    calls := calls + [AllocHGlobal(cbNeeded)];
    calls := calls + [EnumPrinters(pAddr, cbNeeded)];
    if !second.succeeds {
      var empty := new PrinterInfo2[0];
      return Returned(empty), calls;
    }
    var cReturned := second.cReturned;
    var printerInfo2 := new PrinterInfo2[cReturned];
    var offset := pAddr;
    var increment := PrinterInfo2Size;
    ghost var head := calls;
    for i := 0 to cReturned
      invariant offset == pAddr + i * PrinterInfo2Size
      invariant forall k :: 0 <= k < i ==> printerInfo2[k] == memory(pAddr + k * PrinterInfo2Size)
      invariant calls == head + Walk(pAddr, i)
    {
      printerInfo2[i] := memory(offset);
      calls := calls + [PtrToStructure(offset)];
      assert Walk(pAddr, i + 1) == Walk(pAddr, i) + [PtrToStructure(offset)];
      offset := offset + increment;
    }
    calls := calls + [FreeHGlobal(pAddr)];
    r := Returned(printerInfo2);
  }
}
