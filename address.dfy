/** The device address uim takes on its command line: strtoba (uim.c lines
    458-486), which turns the text XX:XX:XX:XX:XX:XX into six octets, and
    the argument and reserved-address rules of main (uim.c lines 496-543). */
module Address {
  import opened Bytes
  import opened Hci

  /** Length of the address text XX:XX:XX:XX:XX:XX (the usage message at
      uim.c line 512). */
  const BD_ADDR_LEN: nat := 17

  predicate IsHexDigit(c: char)
  {
    '0' <= c <= '9' || 'A' <= c <= 'F' || 'a' <= c <= 'f'
  }

  /** The value of a hex digit, in either case. */
  function HexDigitValue(c: char): (v: nat)
    requires IsHexDigit(c)
    ensures v < 16
  {
    if '0' <= c <= '9' then c as int - '0' as int
    else if 'A' <= c <= 'F' then c as int - 'A' as int + 10
    else c as int - 'a' as int + 10
  }

  /** One %02X conversion, in the strict form: two hex digits at position at. */
  function HexPair(s: string, at: nat): Option<nat>
  {
    if at + 2 <= |s| && IsHexDigit(s[at]) && IsHexDigit(s[at + 1])
    then Some(16 * HexDigitValue(s[at]) + HexDigitValue(s[at + 1]))
    else None
  }

  /** The conversions of sscanf(str, "%02X:%02X:%02X:%02X:%02X:%02X") from
      field k on: each field is preceded by the literal colon (field 0
      excepted), and the scan stops at the first mismatch. */
  function ScanFrom(str: string, k: nat): (f: seq<nat>)
    requires k <= BD_ADDR_BIN_LEN
    ensures |f| <= BD_ADDR_BIN_LEN - k
    decreases BD_ADDR_BIN_LEN - k
  {
    if k == BD_ADDR_BIN_LEN then []
    else if k > 0 && (3 * k - 1 >= |str| || str[3 * k - 1] != ':') then []
    else match HexPair(str, 3 * k)
      case None => []
      case Some(v) => [v] + ScanFrom(str, k + 1)
  }

  /** The fields sscanf converts; its return value is their number. */
  function Scan(str: string): seq<nat>
  {
    ScanFrom(str, 0)
  }

  /** Position p of the address text is there and holds a colon after each
      field, a hex digit elsewhere. */
  predicate FitsAt(t: string, p: nat)
  {
    p < |t| && if p % 3 == 2 then t[p] == ':' else IsHexDigit(t[p])
  }

  /** The text form XX:XX:XX:XX:XX:XX, in upper or lower case. */
  predicate IsAddressText(t: string)
  {
    |t| == BD_ADDR_LEN && forall p :: 0 <= p < BD_ADDR_LEN ==> FitsAt(t, p)
  }

  /** Field i of the text, at positions 3i and 3i+1, is two hex digits. */
  predicate HasField(t: string, i: nat)
  {
    3 * i + 2 <= |t| && IsHexDigit(t[3 * i]) && IsHexDigit(t[3 * i + 1])
  }

  /** The value of field i. */
  function FieldAt(t: string, i: nat): nat
    requires HasField(t, i)
  {
    16 * HexDigitValue(t[3 * i]) + HexDigitValue(t[3 * i + 1])
  }

  /** The scan from field k on converts every remaining field exactly when
      the text fits the address form from the colon before field k on. */
  lemma {:induction false} ScanFromText(str: string, k: nat)
    requires k <= BD_ADDR_BIN_LEN
    ensures |ScanFrom(str, k)| == BD_ADDR_BIN_LEN - k <==>
      forall p :: 0 <= p < BD_ADDR_LEN && 3 * k <= p + 1 ==> FitsAt(str, p)
    decreases BD_ADDR_BIN_LEN - k
  {
    if k < BD_ADDR_BIN_LEN {
      if k > 0 && (3 * k - 1 >= |str| || str[3 * k - 1] != ':') {
        assert (3 * k - 1) % 3 == 2;
        assert !FitsAt(str, 3 * k - 1);
      } else if HexPair(str, 3 * k).None? {
        var p := if 3 * k < |str| && IsHexDigit(str[3 * k]) then 3 * k + 1 else 3 * k;
        assert p % 3 == (if p == 3 * k then 0 else 1);
        assert !FitsAt(str, p);
      } else {
        ScanFromText(str, k + 1);
        assert ScanFrom(str, k)[1..] == ScanFrom(str, k + 1);
        if forall p :: 0 <= p < BD_ADDR_LEN && 3 * (k + 1) <= p + 1 ==> FitsAt(str, p) {
          forall p | 0 <= p < BD_ADDR_LEN && 3 * k <= p + 1
            ensures FitsAt(str, p)
          {
            if p == 3 * k - 1 {
              assert p % 3 == 2;
            } else if p == 3 * k {
              assert p % 3 == 0;
            } else if p == 3 * k + 1 {
              assert p % 3 == 1;
            } else {
              assert 3 * (k + 1) <= p + 1;
            }
          }
        }
      }
    }
  }

  /** Each field the scan from field k on converts is the value of the two
      digits at its place in the text. */
  lemma {:induction false} ScanFromFields(str: string, k: nat)
    requires k <= BD_ADDR_BIN_LEN
    ensures forall i :: k <= i < k + |ScanFrom(str, k)| ==>
      HasField(str, i) && ScanFrom(str, k)[i - k] == FieldAt(str, i)
    decreases BD_ADDR_BIN_LEN - k
  {
    if k < BD_ADDR_BIN_LEN && !(k > 0 && (3 * k - 1 >= |str| || str[3 * k - 1] != ':')) && HexPair(str, 3 * k).Some? {
      ScanFromFields(str, k + 1);
      var f := ScanFrom(str, k);
      assert f == [HexPair(str, 3 * k).value] + ScanFrom(str, k + 1);
      forall i | k < i < k + |f|
        ensures HasField(str, i) && f[i - k] == FieldAt(str, i)
      {
        assert f[i - k] == ScanFrom(str, k + 1)[i - (k + 1)];
      }
    } else {
      assert ScanFrom(str, k) == [];
    }
  }

  /** sscanf converts all six fields exactly when the text starts with the
      address form, and field j is the value of the digits at 3j and 3j+1. */
  lemma ScanReference(str: string)
    ensures |Scan(str)| == BD_ADDR_BIN_LEN <==> |str| >= BD_ADDR_LEN && IsAddressText(str[..BD_ADDR_LEN])
    ensures |Scan(str)| == BD_ADDR_BIN_LEN ==> forall j :: 0 <= j < BD_ADDR_BIN_LEN ==>
      HasField(str, j) && Scan(str)[j] == FieldAt(str, j)
  {
    ScanFromText(str, 0);
    ScanFromFields(str, 0);
    if |str| >= BD_ADDR_LEN {
      var t := str[..BD_ADDR_LEN];
      assert forall p :: 0 <= p < BD_ADDR_LEN ==> (FitsAt(t, p) <==> FitsAt(str, p));
    }
  }

  /** No converted field exceeds 255: a two-digit hex field cannot. */
  lemma {:induction false} FieldsAreOctets(str: string, k: nat)
    requires k <= BD_ADDR_BIN_LEN
    ensures forall j :: 0 <= j < |ScanFrom(str, k)| ==> ScanFrom(str, k)[j] <= 255
    decreases BD_ADDR_BIN_LEN - k
  {
    if k < BD_ADDR_BIN_LEN && !(k > 0 && (3 * k - 1 >= |str| || str[3 * k - 1] != ':')) && HexPair(str, 3 * k).Some? {
      FieldsAreOctets(str, k + 1);
      assert ScanFrom(str, k)[1..] == ScanFrom(str, k + 1);
    }
  }

  /** Fields known to fit an octet, as octets. */
  function Octets(f: seq<nat>): (r: seq<byte>)
    requires forall j :: 0 <= j < |f| ==> f[j] <= 255
    ensures |r| == |f| && forall j :: 0 <= j < |f| ==> r[j] == f[j]
  {
    if f == [] then [] else [f[0] as byte] + Octets(f[1..])
  }

  /** What strtoba returns: None (NULL) unless exactly six fields convert
      and each is at most 255, the address made of the fields otherwise.
      A two-digit field never exceeds 255, so six fields are enough. */
  function ParseAddress(str: string): (r: Option<Addr>)
    ensures r.Some? <==> |Scan(str)| == BD_ADDR_BIN_LEN
    ensures r.Some? ==> forall j :: 0 <= j < BD_ADDR_BIN_LEN ==> r.value[j] == Scan(str)[j]
  {
    FieldsAreOctets(str, 0);
    var f := Scan(str);
    if |f| == BD_ADDR_BIN_LEN && forall j :: 0 <= j < |f| ==> f[j] <= 255
    then Some(Octets(f))
    else None
  }

  /** strtoba: the fields are converted, then checked and copied one by one. */
  method StrToBa(str: string) returns (ba: Option<Addr>)
    ensures ba == ParseAddress(str)
    ensures ba.Some? ==> forall j :: 0 <= j < BD_ADDR_BIN_LEN ==> ba.value[j] == Scan(str)[j]
  {
    var tmp := Scan(str);
    if |tmp| != BD_ADDR_BIN_LEN {
      return None;
    }
    ba := CopyOctets(tmp);
  }

  /** strtoba's copying loop (uim.c lines 474-482): the first field above
      255 stops it with NULL; otherwise every field is copied into an
      octet of the result. */
  method CopyOctets(f: seq<nat>) returns (r: Option<seq<byte>>)
    ensures r.Some? <==> forall j :: 0 <= j < |f| ==> f[j] <= 255
    ensures r.Some? ==> r == Some(Octets(f))
  {
    var b := new byte[|f|];
    var i := 0;
    while i < |f|
      invariant 0 <= i <= |f|
      invariant forall j :: 0 <= j < i ==> f[j] <= 255 && b[j] == f[j]
    {
      if f[i] > 255 {
        return None;
      }
      b[i] := f[i];
      i := i + 1;
    }
    CopiedOctets(f, b[..]);
    return Some(b[..]);
  }

  /** Fields copied one by one into an array of octets are Octets of them. */
  lemma CopiedOctets(f: seq<nat>, r: seq<byte>)
    requires |r| == |f| && forall j :: 0 <= j < |f| ==> f[j] <= 255 && r[j] == f[j]
    ensures forall j :: 0 <= j < |f| ==> f[j] <= 255
    ensures r == Octets(f)
  {
    assert forall j :: 0 <= j < |f| ==> r[j] == Octets(f)[j];
  }

  /** strtoba succeeds exactly on text that starts with the address form;
      the check against 255 never rejects anything. */
  lemma ParseAddressReference(str: string)
    ensures ParseAddress(str).Some? <==> |str| >= BD_ADDR_LEN && IsAddressText(str[..BD_ADDR_LEN])
    ensures ParseAddress(str).Some? ==> forall j :: 0 <= j < BD_ADDR_BIN_LEN ==>
      HasField(str, j) && ParseAddress(str).value[j] == FieldAt(str, j)
  {
    ScanReference(str);
    FieldsAreOctets(str, 0);
  }

  // ----- main: arguments and reserved addresses -----

  /** The table of addresses uim does not program (uim.c lines 496-498). */
  const IGNORED: seq<Addr> := [[0x00, 0x00, 0x00, 0x00, 0x00, 0x00], [0xFF, 0xFF, 0xFF, 0xFF, 0xFF, 0xFF]]

  /** An address with every octet 0x00, or every octet 0xFF. */
  predicate IsReserved(a: Addr)
  {
    (forall j :: 0 <= j < |a| ==> a[j] == 0x00) || (forall j :: 0 <= j < |a| ==> a[j] == 0xFF)
  }

  /** The reserved addresses are exactly the two entries of the table. */
  lemma ReservedAreIgnored(a: Addr)
    ensures IsReserved(a) <==> a == IGNORED[0] || a == IGNORED[1]
  {
    if forall j :: 0 <= j < |a| ==> a[j] == 0x00 {
      assert a == IGNORED[0];
    }
    if forall j :: 0 <= j < |a| ==> a[j] == 0xFF {
      assert a == IGNORED[1];
    }
  }

  /** The memcmp loop over the table of ignored addresses (uim.c lines 524-539). */
  method IsIgnored(a: Addr) returns (ignored: bool)
    ensures ignored <==> IsReserved(a)
  {
    var i := 0;
    while i < |IGNORED|
      invariant 0 <= i <= |IGNORED|
      invariant forall j :: 0 <= j < i ==> IGNORED[j] != a
    {
      if IGNORED[i] == a {
        return true;
      }
      i := i + 1;
    }
    ReservedAreIgnored(a);
    return false;
  }

  /** How main starts: a usage error, or polling with the address to
      program (None: keep the chip's own). */
  datatype Startup = Usage | Start(bdAddr: Option<Addr>)

  /** The argument rules of main, for the arguments after the program name:
      more than one, or one whose length is not BD_ADDR_LEN, is a usage
      error; an address that does not parse or is reserved is dropped. */
  function StartupOf(args: seq<string>): (r: Startup)
    ensures r.Usage? <==> |args| > 1 || (|args| == 1 && |args[0]| != BD_ADDR_LEN)
    ensures r.Start? && r.bdAddr.Some? <==>
      |args| == 1 && |args[0]| == BD_ADDR_LEN && ParseAddress(args[0]).Some? && !IsReserved(ParseAddress(args[0]).value)
    ensures r.Start? && r.bdAddr.Some? ==> r.bdAddr == ParseAddress(args[0])
  {
    if |args| > 1 then Usage
    else if |args| == 0 then Start(None)
    else if |args[0]| != BD_ADDR_LEN then Usage
    else match ParseAddress(args[0])
      case None => Start(None)
      case Some(a) => if IsReserved(a) then Start(None) else Start(Some(a))
  }

  /** main up to the first poll (uim.c lines 501-543). */
  method ParseArguments(args: seq<string>) returns (r: Startup)
    ensures r == StartupOf(args)
  {
    if |args| > 1 {
      return Usage;
    }
    var bdAddr: Option<Addr> := None;
    if |args| == 1 {
      if |args[0]| != BD_ADDR_LEN {
        return Usage;
      }
      bdAddr := StrToBa(args[0]);
    }
    if bdAddr.Some? {
      var ignored := IsIgnored(bdAddr.value);
      if ignored {
        bdAddr := None;
      }
    }
    return Start(bdAddr);
  }
}
