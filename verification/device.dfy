/**
 The parts of the serial link the acquisition loop relies on
 (power_profiler/power_profiler.py:55-76, 132): choosing the probe's port
 from the list of serial ports, and the control bytes written to it.
 */
module DeviceLink {
  import opened Wrappers

  /** Control bytes: stop, go, and exit. */
  const StopByte: char := 's'
  const GoByte: char := 'g'
  const ExitByte: char := 'e'

  /** The USB identity of the probe, as it appears at the head of a port's hardware id. */
  const Signature: string := "USB VID:PID=0D28:0204"

  /** One entry of the port list: device name, description and hardware id. */
  datatype PortInfo = PortInfo(device: string, description: string, hwid: string)

  function UpperChar(c: char): (u: char)
    ensures 'a' <= c <= 'z' ==> u as int == c as int - 32
    ensures !('a' <= c <= 'z') ==> u == c
    ensures !('a' <= u <= 'z')  || !('a' <= c <= 'z')
  {
    if 'a' <= c <= 'z' then (c as int - 32) as char else c
  }

  /** str.upper, on the ASCII letters. */
  function Upper(s: string): (u: string)
    ensures |u| == |s|
    ensures forall i :: 0 <= i < |s| ==> u[i] == UpperChar(s[i])
  {
    seq(|s|, i requires 0 <= i < |s| => UpperChar(s[i]))
  }

  /** A port is the probe's when its upper-cased hardware id starts with the signature. */
  predicate IsProbe(p: PortInfo) {
    Signature <= Upper(p.hwid)
  }

  /** The index of the first port that is the probe's, or None when no port is. */
  function SelectPort(ports: seq<PortInfo>): (r: Option<nat>)
    ensures r.Some? ==> r.value < |ports| && IsProbe(ports[r.value])
    ensures r.Some? ==> forall j :: 0 <= j < r.value ==> !IsProbe(ports[j])
    ensures r.None? ==> forall j :: 0 <= j < |ports| ==> !IsProbe(ports[j])
  {
    if |ports| == 0 then None
    else if IsProbe(ports[0]) then Some(0)
    else match SelectPort(ports[1..])
      case None => None
      case Some(k) => Some(k + 1)
  }

  /** c is s, or s is an upper-case ASCII letter and c its lower-case form. */
  predicate SameIgnoringCase(c: char, s: char) {
    c == s || ('A' <= s <= 'Z' && c as int == s as int + 32)
  }

  /** The match ignores the case of the hardware id: a port is the probe's exactly
      when the id's first 21 characters spell the signature in any mix of cases. */
  lemma IsProbeIgnoresCase(p: PortInfo)
    ensures IsProbe(p) <==>
      (|p.hwid| >= |Signature| && forall i :: 0 <= i < |Signature| ==> SameIgnoringCase(p.hwid[i], Signature[i]))
  {
    var u := Upper(p.hwid);
    if IsProbe(p) {
      forall i | 0 <= i < |Signature|
        ensures SameIgnoringCase(p.hwid[i], Signature[i])
      {
        assert u[i] == Signature[i];
      }
    } else if |p.hwid| >= |Signature| {
      assert u[..|Signature|] != Signature;
      var i :| 0 <= i < |Signature| && u[i] != Signature[i];
      assert !SameIgnoringCase(p.hwid[i], Signature[i]);
    }
  }
}
