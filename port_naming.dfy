/** The string construction GetDevices performs on each device: the registry
    key reconstructed from the device path, and the port name made of the
    registry's base name and the port number formatted with `00#`. */
module PortNaming {
  import opened Win32

  /** The prefix `\\?\` that a device interface path starts with. */
  const DevicePathPrefix: string := "\\\\?\\"

  /** The prefix that replaces it in the device's key under DeviceClasses. */
  const RegistryKeyPrefix: string := "##?#"

  /** `path.StartsWith(@"\\?\", StringComparison.OrdinalIgnoreCase)`; none of
      the four characters has another case, so this is an exact prefix test. */
  predicate HasDevicePathPrefix(path: string)
  {
    |path| >= 4 && path[..4] == DevicePathPrefix
  }

  /** The device's registry key, `"##?#" + path[4..]`, built only for a path
      with the `\\?\` prefix. The key has the path's length and gives the path
      back when its prefix is swapped again. */
  function RegistryKey(path: string): (key: Option<string>)
    ensures key.Some? <==> HasDevicePathPrefix(path)
    ensures key.Some? ==>
      |key.value| == |path| && key.value[..4] == RegistryKeyPrefix &&
      DevicePathPrefix + key.value[4..] == path
  {
    if HasDevicePathPrefix(path) then Some(RegistryKeyPrefix + path[4..]) else None
  }

  /** The character of a decimal digit. */
  function DigitChar(d: nat): (c: char)
    requires d < 10
    ensures '0' <= c <= '9'
  {
    (('0' as int) + d) as char
  }

  /** The value of a decimal digit character. */
  function DigitValue(c: char): nat
    requires '0' <= c <= '9'
  {
    (c as int) - ('0' as int)
  }

  predicate IsDigits(s: string)
  {
    forall i :: 0 <= i < |s| ==> '0' <= s[i] <= '9'
  }

  /** The shortest decimal numeral of `n`. */
  function Decimal(n: nat): (s: string)
    ensures 1 <= |s| && IsDigits(s)
  {
    if n < 10 then [DigitChar(n)] else Decimal(n / 10) + [DigitChar(n % 10)]
  }

  /** `s` left-padded with '0' to at least `width` characters. */
  function PadZeros(s: string, width: nat): (p: string)
    ensures |p| == if |s| >= width then |s| else width
  {
    if |s| >= width then s else seq(width - |s|, _ => '0') + s
  }

  /** `port.ToString("00#")`: the two `0` placeholders and the `#` force at
      least three integer digits, zero-padded on the left; a negative value
      gets a leading '-'. */
  function FormatPort(port: int): (s: string)
  {
    (if port < 0 then "-" else "") + PadZeros(Decimal(if port < 0 then -port else port), 3)
  }

  /** `$"{baseName}{port:00#}"`; a null base name formats as "". */
  function PortName(baseName: Option<string>, port: int): string
  {
    baseName.GetOr("") + FormatPort(port)
  }

  /** Reads a decimal numeral (leading zeros allowed). */
  function ParseDecimal(s: string): nat
    requires IsDigits(s)
  {
    if s == [] then 0 else ParseDecimal(s[..|s| - 1]) * 10 + DigitValue(s[|s| - 1])
  }

  /** Reads what FormatPort writes. */
  function ParsePort(s: string): int
  {
    if |s| > 0 && s[0] == '-' && IsDigits(s[1..]) then -(ParseDecimal(s[1..]) as int)
    else if IsDigits(s) then ParseDecimal(s)
    else 0
  }

  lemma {:induction false} DecimalRoundTrip(n: nat)
    ensures ParseDecimal(Decimal(n)) == n
  {
    if n >= 10 {
      var s := Decimal(n);
      assert s[..|s| - 1] == Decimal(n / 10);
      DecimalRoundTrip(n / 10);
    }
  }

  lemma {:induction false} LeadingZerosIgnored(zeros: nat, s: string)
    requires IsDigits(s)
    ensures IsDigits(seq(zeros, _ => '0') + s)
    ensures ParseDecimal(seq(zeros, _ => '0') + s) == ParseDecimal(s)
  {
    var z: string := seq(zeros, _ => '0');
    if s == [] {
      assert z + s == z;
      AllZeros(zeros);
    } else {
      var t := z + s;
      assert t[..|t| - 1] == z + s[..|s| - 1];
      LeadingZerosIgnored(zeros, s[..|s| - 1]);
    }
  }

  lemma {:induction false} AllZeros(zeros: nat)
    ensures ParseDecimal(seq(zeros, _ => '0')) == 0
  {
    if zeros > 0 {
      var z: string := seq(zeros, _ => '0');
      assert z[..zeros - 1] == seq(zeros - 1, _ => '0');
      AllZeros(zeros - 1);
    }
  }

  /** The padded numeral of `m` has at least three digits and reads back as `m`. */
  lemma PaddedDecimalRoundTrip(m: nat)
    ensures var p := PadZeros(Decimal(m), 3); |p| >= 3 && IsDigits(p) && ParseDecimal(p) == m
  {
    var d := Decimal(m);
    DecimalRoundTrip(m);
    if |d| < 3 {
      LeadingZerosIgnored(3 - |d|, d);
    }
  }

  /** The formatted port has at least three digits after an optional sign and
      reads back as the same number: no two ports share a port-number suffix. */
  lemma FormatPortRoundTrip(port: int)
    ensures var s := FormatPort(port);
      (port >= 0 ==> |s| >= 3 && IsDigits(s)) &&
      (port < 0 ==> |s| >= 4 && s[0] == '-' && IsDigits(s[1..])) &&
      ParsePort(s) == port
  {
    var m := if port < 0 then -port else port;
    var p := PadZeros(Decimal(m), 3);
    PaddedDecimalRoundTrip(m);
    var s := FormatPort(port);
    if port < 0 {
      assert s == "-" + p;
      assert s[1..] == p;
    } else {
      assert s == p;
      assert '0' <= s[0] <= '9';
    }
  }
}
