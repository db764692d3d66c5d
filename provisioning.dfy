/** bd_provisioning (bd_provisioning.c): takes the device address the
    secure element holds and writes it, as text XX:XX:XX:XX:XX:XX, to the
    file uim's address is configured from. The secure-element call and the
    file operations are inputs. */
module Provisioning {
  import opened Bytes
  import opened Hci
  import opened Address

  /** Bytes a good retrieval returns (bd_provisioning.c line 36). */
  const BD_ADDRESS_LEN: int := 6
  /** Size of the text buffer, terminator included (line 42). */
  const BD_LEN: nat := 18
  const NO_ERR: int := 0
  const ERR_WRONG_PARAM: int := -1
  /** The initial contents of the text buffer (line 51). */
  const PLACEHOLDER: string := "00:00:00:00:00:00"

  /** The upper-case hex digit of a value below 16, as %X prints it. */
  function HexChar(v: nat): (c: char)
    requires v < 16
    ensures IsHexDigit(c) && HexDigitValue(c) == v
    ensures !('a' <= c <= 'f')
  {
    if v < 10 then ('0' as int + v) as char else ('A' as int + v - 10) as char
  }

  /** One %02X conversion of an octet: two digits, high nibble first. */
  function Hex2(v: byte): (s: string)
    ensures |s| == 2 && IsHexDigit(s[0]) && IsHexDigit(s[1])
    ensures 16 * HexDigitValue(s[0]) + HexDigitValue(s[1]) == v
  {
    [HexChar(v / 16), HexChar(v % 16)]
  }

  /** The fields of b in %02X form, separated by colons. */
  function FormatFields(b: seq<byte>): (t: string)
    requires b != []
    ensures |t| == 3 * |b| - 1
  {
    if |b| == 1 then Hex2(b[0]) else Hex2(b[0]) + ":" + FormatFields(b[1..])
  }

  /** The text of "%02X:%02X:%02X:%02X:%02X:%02X" for b[0] .. b[5]
      (lines 95-98). */
  function FormatAddress(b: Addr): (t: string)
    ensures |t| == BD_ADDR_LEN
  {
    FormatFields(b)
  }

  /** Character p of the formatted fields: a colon after each field, the
      digits of field p / 3 elsewhere. */
  function FormatChar(b: seq<byte>, p: nat): char
    requires p / 3 < |b|
  {
    if p % 3 == 2 then ':' else Hex2(b[p / 3])[p % 3]
  }

  /** The formatted text, character by character. */
  lemma {:induction false} FormatFieldsAt(b: seq<byte>)
    requires b != []
    ensures forall p :: 0 <= p < 3 * |b| - 1 ==> FormatFields(b)[p] == FormatChar(b, p)
  {
    if |b| > 1 {
      FormatFieldsAt(b[1..]);
      var t := FormatFields(b);
      var r := FormatFields(b[1..]);
      assert t == Hex2(b[0]) + ":" + r;
      forall p | 3 <= p < 3 * |b| - 1
        ensures t[p] == FormatChar(b, p)
      {
        assert t[p] == r[p - 3];
        assert (p - 3) / 3 == p / 3 - 1 && (p - 3) % 3 == p % 3;
        assert b[1..][p / 3 - 1] == b[p / 3];
      }
    }
  }

  /** snprintf(buf, size, ...) with the text it formats: at most size - 1
      characters are kept, the last byte being the terminator. */
  function Snprintf(text: string, size: nat): (s: string)
    requires size > 0
    ensures |s| < size && s <= text
    ensures |text| < size ==> s == text
  {
    if |text| < size then text else text[..size - 1]
  }

  /** The formatted address is BD_ADDR_LEN characters: with its terminator
      it fits the BD_LEN-byte buffer, so snprintf keeps all of it. */
  lemma FormatFitsBuffer(b: Addr)
    ensures |FormatAddress(b)| + 1 == BD_LEN
    ensures Snprintf(FormatAddress(b), BD_LEN) == FormatAddress(b)
  {
  }

  /** Field j of the formatted fields is the %02X form of b[j]. */
  lemma FormatCharField(b: seq<byte>, j: nat)
    requires j < |b|
    ensures FormatChar(b, 3 * j) == Hex2(b[j])[0] && FormatChar(b, 3 * j + 1) == Hex2(b[j])[1]
  {
    assert (3 * j) / 3 == j && (3 * j + 1) / 3 == j && (3 * j + 1) % 3 == 1;
  }

  /** Each position of the formatted text fits the address form. */
  lemma FormatFits(b: Addr, p: nat)
    requires p < BD_ADDR_LEN
    ensures FitsAt(FormatAddress(b), p)
  {
    FormatFieldsAt(b);
    assert FormatAddress(b)[p] == FormatChar(b, p);
    FormatCharField(b, p / 3);
    assert p == 3 * (p / 3) + p % 3;
  }

  /** Field j of the formatted text reads as b[j]. */
  lemma FormatFieldReads(b: Addr, j: nat)
    requires j < BD_ADDR_BIN_LEN
    ensures HasField(FormatAddress(b), j) && FieldAt(FormatAddress(b), j) == b[j]
  {
    var t := FormatAddress(b);
    FormatFieldsAt(b);
    FormatCharField(b, j);
    assert t[3 * j] == FormatChar(b, 3 * j) && t[3 * j + 1] == FormatChar(b, 3 * j + 1);
  }

  /** The formatted text has the address form uim expects, and field j of
      it reads as b[j]. */
  lemma FormatIsAddressText(b: Addr)
    ensures IsAddressText(FormatAddress(b))
    ensures forall j :: 0 <= j < BD_ADDR_BIN_LEN ==> HasField(FormatAddress(b), j) && FieldAt(FormatAddress(b), j) == b[j]
  {
    forall j | 0 <= j < BD_ADDR_BIN_LEN
      ensures HasField(FormatAddress(b), j) && FieldAt(FormatAddress(b), j) == b[j]
    {
      FormatFieldReads(b, j);
    }
    forall p | 0 <= p < BD_ADDR_LEN
      ensures FitsAt(FormatAddress(b), p)
    {
      FormatFits(b, p);
    }
  }

  /** Round trip: uim's parser reads back exactly the six octets the
      provisioning tool formatted. */
  lemma FormatThenParse(b: Addr)
    ensures ParseAddress(FormatAddress(b)) == Some(b)
  {
    var t := FormatAddress(b);
    FormatIsAddressText(b);
    assert t[..BD_ADDR_LEN] == t;
    ParseAddressReference(t);
    var a := ParseAddress(t).value;
    assert forall j :: 0 <= j < BD_ADDR_BIN_LEN ==> a[j] == b[j];
    assert a == b;
  }

  /** Hex letters in upper case; other characters unchanged. */
  function UpperHex(c: char): char
  {
    if 'a' <= c <= 'f' then (c as int - 'a' as int + 'A' as int) as char else c
  }

  /** %X prints a digit the way the upper-case form of the text writes it. */
  lemma HexCharOfDigit(c: char)
    requires IsHexDigit(c)
    ensures HexChar(HexDigitValue(c)) == UpperHex(c)
  {
  }

  /** The text with its hex letters in upper case. */
  function Upper(t: string): (u: string)
    ensures |u| == |t| && forall p :: 0 <= p < |t| ==> u[p] == UpperHex(t[p])
  {
    if t == [] then [] else [UpperHex(t[0])] + Upper(t[1..])
  }

  /** Printing a field's value with %02X gives back its digits, upper-cased. */
  lemma FieldReprinted(t: string, j: nat, v: byte)
    requires HasField(t, j) && v == FieldAt(t, j)
    ensures Hex2(v) == [UpperHex(t[3 * j]), UpperHex(t[3 * j + 1])]
  {
    var hi, lo := HexDigitValue(t[3 * j]), HexDigitValue(t[3 * j + 1]);
    ModUnique(v, 16, hi, lo);
    HexCharOfDigit(t[3 * j]);
    HexCharOfDigit(t[3 * j + 1]);
  }

  /** Character p of the reprinted address is that of the text, upper-cased. */
  lemma ReprintedAt(t: string, b: Addr, p: nat)
    requires p < BD_ADDR_LEN && FitsAt(t, p)
    requires HasField(t, p / 3) && b[p / 3] == FieldAt(t, p / 3)
    ensures FormatChar(b, p) == UpperHex(t[p])
  {
    if p % 3 != 2 {
      var j := p / 3;
      FieldReprinted(t, j, b[j]);
      FormatCharField(b, j);
      assert p == 3 * j + p % 3;
    }
  }

  /** The other round trip: an address text uim accepts is, up to the case
      of its hex letters, the text the provisioning tool writes for the
      parsed octets. */
  lemma ParseThenFormat(t: string)
    requires |t| == BD_ADDR_LEN && ParseAddress(t).Some?
    ensures FormatAddress(ParseAddress(t).value) == Upper(t)
  {
    var b := ParseAddress(t).value;
    var f := FormatAddress(b);
    var u := Upper(t);
    ParseAddressReference(t);
    assert t[..BD_ADDR_LEN] == t;
    FormatFieldsAt(b);
    forall p | 0 <= p < BD_ADDR_LEN
      ensures f[p] == u[p]
    {
      assert FitsAt(t[..BD_ADDR_LEN], p);
      ReprintedAt(t, b, p);
    }
  }

  /** The placeholder is what the tool would write for the all-zero address. */
  lemma PlaceholderIsFormatted()
    ensures FormatAddress([0, 0, 0, 0, 0, 0]) == PLACEHOLDER
  {
    var z: Addr := [0, 0, 0, 0, 0, 0];
    FormatFieldsAt(z);
    forall p | 0 <= p < BD_ADDR_LEN
      ensures FormatAddress(z)[p] == PLACEHOLDER[p]
    {
      assert FormatAddress(z)[p] == FormatChar(z, p);
    }
  }

  /** The placeholder text is the all-zero address, which uim discards. */
  lemma PlaceholderIsReserved()
    ensures ParseAddress(PLACEHOLDER) == Some([0, 0, 0, 0, 0, 0])
    ensures IsReserved([0, 0, 0, 0, 0, 0])
    ensures StartupOf([PLACEHOLDER]) == Start(None)
  {
    PlaceholderIsFormatted();
    FormatThenParse([0, 0, 0, 0, 0, 0]);
  }

  // ----- main (bd_provisioning.c lines 44-116) -----

  /** What get_customer_data hands back: its return value and the buffer
      it filled (None: NULL). */
  datatype Retrieval = Retrieval(res: int, data: Option<Addr>)

  /** How main ends: its return value and the text it wrote to the address
      file, if it wrote one. */
  datatype Provisioned = Provisioned(ret: int, written: Option<string>)

  /** The address main uses: only a retrieval of exactly BD_ADDRESS_LEN
      bytes with a buffer, and only when the secure element is built in
      (lines 59-88). */
  function Retrieved(secureElement: bool, r: Retrieval): (a: Option<Addr>)
    ensures a.Some? <==> secureElement && r.res == BD_ADDRESS_LEN && r.data.Some?
    ensures a.Some? ==> a == r.data
  {
    if secureElement && r.res == BD_ADDRESS_LEN && r.data.Some? then r.data else None
  }

  /** main(argc, argv): any argument is an error before anything else; the
      file is written only with a retrieved address, and a file that cannot
      be opened ends main with errno; the write's own result is ignored. */
  function Provision(argc: int, secureElement: bool, r: Retrieval, fileOpens: bool, errno: int): (o: Provisioned)
    ensures argc != 1 ==> o == Provisioned(ERR_WRONG_PARAM, None)
    ensures o.written.Some? <==> argc == 1 && Retrieved(secureElement, r).Some? && fileOpens
    ensures o.written.Some? ==> o.ret == NO_ERR && o.written.value == FormatAddress(Retrieved(secureElement, r).value)
    ensures argc == 1 && o.ret != NO_ERR ==> o.ret == errno && Retrieved(secureElement, r).Some? && !fileOpens
  {
    if argc != 1 then Provisioned(ERR_WRONG_PARAM, None)
    else match Retrieved(secureElement, r)
      case None => Provisioned(NO_ERR, None)
      case Some(b) =>
        if fileOpens then
          FormatFitsBuffer(b);
          Provisioned(NO_ERR, Some(Snprintf(FormatAddress(b), BD_LEN)))
        else Provisioned(errno, None)
  }

  /** What bd_provisioning writes, uim started with it as its argument
      programs into the controller: the retrieved address itself, unless
      it is one of the reserved ones. */
  lemma ProvisionedAddressReachesUim(secureElement: bool, r: Retrieval, errno: int)
    requires Provision(1, secureElement, r, true, errno).written.Some?
    ensures var b := r.data.value;
      StartupOf([Provision(1, secureElement, r, true, errno).written.value]) ==
        Start(if IsReserved(b) then None else Some(b))
  {
    FormatThenParse(r.data.value);
  }
}
