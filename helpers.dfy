// The field helpers of sbfhelpers.py: type tags, little-endian integer
// encoding (int.to_bytes / int.from_bytes), value <-> bytes conversion by
// tag, nominal values, block ids, padding and the id table lookup.

module SbfHelpers {
  import opened SbfCore
  import opened SbfCrc

  // ---------------------------------------------------------------- tags

  /** atttyp: the kind letter of a tag, `att[0:1]` ("" for an empty tag). */
  function Kind(att: string): (r: string)
    ensures |r| <= 1
    ensures |att| > 0 ==> r == [att[0]]
  {
    Slice(att, 0, 1)
  }

  predicate IsDigit(c: char)
  {
    '0' <= c <= '9'
  }

  /** The value of a string of decimal digits. */
  function DecimalValue(s: string): nat
    requires forall i :: 0 <= i < |s| ==> IsDigit(s[i])
    decreases |s|
  {
    if s == [] then 0
    else
      assert IsDigit(s[|s| - 1]);
      10 * DecimalValue(s[..|s| - 1]) + (s[|s| - 1] as int - '0' as int)
  }

  lemma DecimalValue3(s: string)
    requires |s| == 3 && forall i :: 0 <= i < |s| ==> IsDigit(s[i])
    ensures DecimalValue(s) == 100 * (s[0] as int - '0' as int) + 10 * (s[1] as int - '0' as int) + (s[2] as int - '0' as int)
  {
    var s1 := s[..1];
    var s2 := s[..2];
    assert s1[..0] == [];
    assert DecimalValue(s1) == s[0] as int - '0' as int;
    assert s2[..1] == s1;
    assert DecimalValue(s2) == 10 * DecimalValue(s1) + (s[1] as int - '0' as int);
    assert s[..2] == s2;
  }

  /** Python's `int(s)` restricted to plain decimal digits. */
  function ParseDecimal(s: string): (r: Result<int>)
    ensures r.Ok? <==> |s| > 0 && forall i :: 0 <= i < |s| ==> IsDigit(s[i])
    ensures r.Ok? ==> r.value >= 0
    ensures r.Err? ==> r.error == PyValueError
  {
    if |s| > 0 && forall i :: 0 <= i < |s| ==> IsDigit(s[i])
    then Ok(DecimalValue(s))
    else Err(PyValueError)
  }

  /** attsiz: -1 for the variable-length "CH", otherwise the number in `att[1:4]`. */
  function AttSiz(att: string): (r: Result<int>)
    ensures att == CH ==> r == Ok(-1)
    ensures att != CH ==> r == ParseDecimal(Slice(att, 1, 4))
    ensures r.Ok? ==> r.value >= -1 && (r.value == -1 <==> att == CH)
  {
    if att == CH then Ok(-1)
    else
      var n :- ParseDecimal(Slice(att, 1, 4));
      Ok(n)
  }

  lemma AttSizExamples()
    ensures AttSiz("P003") == Ok(3)
    ensures AttSiz("C032") == Ok(32)
    ensures AttSiz("U002") == Ok(2)
    ensures AttSiz("CH") == Ok(-1)
    ensures Kind("U004") == "U" && Kind("I032") == "I"
  {
    assert Slice("P003", 1, 4) == "003";
    assert Slice("C032", 1, 4) == "032";
    assert Slice("U002", 1, 4) == "002";
    DecimalValue3("003");
    DecimalValue3("032");
    DecimalValue3("002");
  }

  // ------------------------------------------------------ little endian

  /** `256 ** n`. */
  function Pow256(n: nat): (r: nat)
    ensures r >= 1
  {
    if n == 0 then 1 else 256 * Pow256(n - 1)
  }

  /** The `n` least significant bytes of `x`, least significant first. */
  function LittleEndian(x: nat, n: nat): (r: seq<byte>)
    ensures |r| == n
  {
    if n == 0 then [] else [x % 256] + LittleEndian(x / 256, n - 1)
  }

  /** `int.from_bytes(b, "little")`. */
  function FromLE(b: seq<byte>): nat
  {
    if b == [] then 0 else b[0] + 256 * FromLE(b[1..])
  }

  lemma {:induction false} FromLEBound(b: seq<byte>)
    ensures FromLE(b) < Pow256(|b|)
  {
    if b != [] {
      FromLEBound(b[1..]);
    }
  }

  /** Encoding keeps exactly the value modulo 256^n. */
  lemma {:induction false} FromLittleEndian(x: nat, n: nat)
    ensures FromLE(LittleEndian(x, n)) == x % Pow256(n)
  {
    if n > 0 {
      FromLittleEndian(x / 256, n - 1);
      var p := Pow256(n - 1);
      assert (x / 256) % p * 256 + x % 256 == x % (256 * p) by {
        DivModNest(x, 256, p);
      }
    }
  }

  /** Euclidean division has only one quotient and remainder. */
  lemma ModUnique(x: int, d: int, q: int, r: int)
    requires d > 0 && 0 <= r < d && x == q * d + r
    ensures x % d == r && x / d == q
  {
    var q0 := x / d;
    var r0 := x % d;
    assert (q - q0) * d == r0 - r;
    if q > q0 {
      MulAtLeast(q - q0, d);
    } else if q < q0 {
      MulAtLeast(q0 - q, d);
    }
  }

  lemma MulAtLeast(k: int, d: int)
    requires k >= 1 && d > 0
    ensures k * d >= d
  {}

  lemma DivModNest(x: nat, a: nat, b: nat)
    requires a > 0 && b > 0
    ensures (x / a) % b * a + x % a == x % (a * b)
  {
    var q := x / a;
    var r := x % a;
    var q2 := q / b;
    var r2 := q % b;
    assert x == q2 * (a * b) + (r2 * a + r) by {
      assert x == q * a + r;
      assert q * a == (q2 * b + r2) * a;
      assert (q2 * b + r2) * a == q2 * (a * b) + r2 * a;
    }
    assert r2 * a + r < a * b by {
      var k := b - 1 - r2;
      assert k * a >= 0;
      assert (b - 1) * a == r2 * a + k * a;
      assert (b - 1) * a == a * b - a;
    }
    ModUnique(x, a * b, q2, r2 * a + r);
  }

  /** Decoding then encoding at the same width gives the bytes back. */
  lemma {:induction false} LittleEndianFrom(b: seq<byte>)
    ensures LittleEndian(FromLE(b), |b|) == b
  {
    if b != [] {
      LittleEndianFrom(b[1..]);
      assert FromLE(b) % 256 == b[0];
      assert FromLE(b) / 256 == FromLE(b[1..]);
    }
  }

  lemma LittleEndianInjective(x: nat, y: nat, n: nat)
    requires x < Pow256(n) && y < Pow256(n)
    requires LittleEndian(x, n) == LittleEndian(y, n)
    ensures x == y
  {
    FromLittleEndian(x, n);
    FromLittleEndian(y, n);
  }

  /** `int.from_bytes(b, "little", signed=signed)`: two's complement when signed. */
  function FromBytes(b: seq<byte>, signed: bool): (r: int)
    ensures !signed ==> 0 <= r < Pow256(|b|)
    ensures signed ==> -(Pow256(|b|) as int) <= 2 * r < Pow256(|b|)
  {
    FromLEBound(b);
    var u := FromLE(b);
    if signed && |b| > 0 && 2 * u >= Pow256(|b|) then u - Pow256(|b|) else u
  }

  /** The values `int.to_bytes(n, signed=signed)` can represent. */
  predicate Fits(x: int, n: nat, signed: bool)
  {
    if !signed then 0 <= x < Pow256(n)
    else if n == 0 then x == 0
    else -(Pow256(n) as int) <= 2 * x < Pow256(n)
  }

  /**
   * `x.to_bytes(n, "little", signed=signed)`: ValueError for a negative
   * length, OverflowError for a value outside the representable range.
   */
  function ToBytes(x: int, n: int, signed: bool): (r: Result<seq<byte>>)
    ensures n < 0 ==> r == Err(PyValueError)
    ensures n >= 0 && !Fits(x, n, signed) ==> r == Err(PyOverflowError)
    ensures r.Ok? ==> n >= 0 && Fits(x, n, signed) && |r.value| == n
  {
    if n < 0 then Err(PyValueError)
    else if !Fits(x, n, signed) then Err(PyOverflowError)
    else Ok(LittleEndian(if x < 0 then x + Pow256(n) else x, n))
  }

  /** Encoding an integer that fits, then decoding it, gives it back. */
  lemma ToBytesThenFrom(x: int, n: nat, signed: bool)
    requires Fits(x, n, signed)
    ensures ToBytes(x, n, signed).Ok?
    ensures FromBytes(ToBytes(x, n, signed).value, signed) == x
  {
    var p := Pow256(n);
    var u: nat := if x < 0 then x + p else x;
    assert u < p;
    assert ToBytes(x, n, signed) == Ok(LittleEndian(u, n));
    FromLittleEndian(u, n);
    ModUnique(u, p, 0, u);
    assert FromLE(LittleEndian(u, n)) == u;
  }

  /** Decoding any bytes, then encoding at the same width and signedness, gives them back. */
  lemma FromThenToBytes(b: seq<byte>, signed: bool)
    ensures ToBytes(FromBytes(b, signed), |b|, signed) == Ok(b)
  {
    var u := FromLE(b);
    FromLEBound(b);
    LittleEndianFrom(b);
    if signed && |b| > 0 {
      var p := Pow256(|b|);
      assert Fits(FromBytes(b, signed), |b|, signed);
    } else if signed {
      assert b == [];
    }
  }

  // -------------------------------------------------- value conversion

  /** The kinds `val2bytes` accepts: the keys of ATTTYPE. */
  const ATTTYPE_KINDS: set<string> := {"C", "I", "U", "F", "X"}

  /** The `isinstance(val, ATTTYPE[kind])` test (a float is never given, so F admits only an int). */
  predicate TypeAdmits(kind: string, v: Value)
  {
    match kind
    case "C" => v.Bytes? || v.Text?
    case "I" => v.Int?
    case "U" => v.Int?
    case "F" => v.Int?
    case "X" => v.Bytes?
    case _ => false
  }

  /**
   * val2bytes: the unknown-kind check, then the type check, then the
   * encoding by kind. Floats are not modelled.
   */
  function ValToBytes(v: Value, att: string): (r: Result<seq<byte>>)
    ensures Kind(att) !in ATTTYPE_KINDS ==> r == Err(SBFTypeError(UnknownAttributeType(att)))
    ensures Kind(att) in ATTTYPE_KINDS && !TypeAdmits(Kind(att), v) ==> r == Err(PyTypeError)
    ensures Kind(att) == "X" && v.Bytes? ==> r == Ok(v.b)
    ensures Kind(att) == "C" && v.Bytes? ==> r == Ok(v.b)
    ensures Kind(att) == "C" && v.Text? ==> r == Ok(v.utf8)
  {
    var k := Kind(att);
    if k !in ATTTYPE_KINDS then Err(SBFTypeError(UnknownAttributeType(att)))
    else if !TypeAdmits(k, v) then Err(PyTypeError)
    else if k == "X" then Ok(v.b)
    else if k == "C" then (if v.Text? then Ok(v.utf8) else Ok(v.b))
    else if k == "I" || k == "U" then
      var n :- AttSiz(att);
      ToBytes(v.i, n, k == "I")
    else Err(Unmodelled(att))
  }

  /** bytes2val: CH first, then by kind; any length of input is accepted. Floats and arrays are not modelled. */
  function BytesToVal(b: seq<byte>, att: string): (r: Result<Value>)
    ensures att == CH ==> r == Ok(Text(b))
    ensures att != CH && Kind(att) in {"X", "C", "P"} ==> r == Ok(Bytes(b))
    ensures att != CH && Kind(att) in {"E", "I", "L", "U"} ==> r == Ok(Int(FromBytes(b, Kind(att) == "I")))
    ensures Kind(att) !in {"X", "C", "P", "E", "I", "L", "U", "F", "A"} ==> r == Err(SBFTypeError(UnknownAttributeType(att)))
  {
    var k := Kind(att);
    if att == CH then Ok(Text(b))
    else if k in {"X", "C", "P"} then Ok(Bytes(b))
    else if k in {"E", "I", "L", "U"} then Ok(Int(FromBytes(b, k == "I")))
    else if k in {"F", "A"} then Err(Unmodelled(att))
    else Err(SBFTypeError(UnknownAttributeType(att)))
  }

  /** `b"\x00" * n`. */
  function Zeros(n: int): (r: seq<byte>)
    ensures |r| == (if n < 0 then 0 else n)
    ensures forall i :: 0 <= i < |r| ==> r[i] == 0
  {
    seq(if n < 0 then 0 else n, _ => 0)
  }

  /** nomval: the value an attribute takes when no keyword gives one. */
  function NomVal(att: string): (r: Result<Value>)
    ensures att == CH ==> r == Ok(Text([]))
    ensures att != CH && Kind(att) in {"E", "I", "L", "U"} ==> r == Ok(Int(0))
    ensures att != CH && Kind(att) in {"X", "C", "P"} && AttSiz(att).Ok? ==> r == Ok(Bytes(Zeros(AttSiz(att).value)))
    ensures att != CH && Kind(att) in {"X", "C", "P"} && AttSiz(att).Err? ==> r == Err(PyValueError)
    ensures Kind(att) !in {"X", "C", "P", "E", "I", "L", "U", "F", "A"} ==> r == Err(SBFTypeError(UnknownAttributeType(att)))
  {
    var k := Kind(att);
    if att == CH then Ok(Text([]))
    else if k in {"X", "C", "P"} then
      var n :- AttSiz(att);
      Ok(Bytes(Zeros(n)))
    else if k in {"F", "A"} then Err(Unmodelled(att))
    else if k in {"E", "I", "L", "U"} then Ok(Int(0))
    else Err(SBFTypeError(UnknownAttributeType(att)))
  }

  /** The shape of an integer tag: kind U or I and a three-digit width. */
  predicate IntTag(att: string)
  {
    |att| == 4 && Kind(att) in {"U", "I"} && ParseDecimal(att[1..4]).Ok?
  }

  function Width(att: string): nat
    requires IntTag(att)
  {
    DecimalValue(att[1..4])
  }

  lemma IntTagSize(att: string)
    requires IntTag(att)
    ensures AttSiz(att) == Ok(Width(att))
  {
    assert Slice(att, 1, 4) == att[1..4];
  }

  /**
   * For U and I tags val2bytes yields exactly `attsiz` little-endian bytes
   * (two's complement for I), and bytes2val gives the integer back.
   */
  lemma IntValRoundTrip(x: int, att: string)
    requires IntTag(att)
    requires Fits(x, Width(att), Kind(att) == "I")
    ensures ValToBytes(Int(x), att).Ok?
    ensures |ValToBytes(Int(x), att).value| == Width(att)
    ensures BytesToVal(ValToBytes(Int(x), att).value, att) == Ok(Int(x))
  {
    IntTagSize(att);
    ToBytesThenFrom(x, Width(att), Kind(att) == "I");
  }

  /** ... and the other way round: any `attsiz` bytes decode to an integer that encodes back to them. */
  lemma IntBytesRoundTrip(b: seq<byte>, att: string)
    requires IntTag(att) && |b| == Width(att)
    ensures BytesToVal(b, att).Ok? && BytesToVal(b, att).value.Int?
    ensures ValToBytes(BytesToVal(b, att).value, att) == Ok(b)
  {
    IntTagSize(att);
    FromThenToBytes(b, Kind(att) == "I");
  }

  /** An integer outside the tag's range overflows. */
  lemma IntValOverflow(x: int, att: string)
    requires IntTag(att)
    requires !Fits(x, Width(att), Kind(att) == "I")
    ensures ValToBytes(Int(x), att) == Err(PyOverflowError)
  {
    IntTagSize(att);
  }

  /** The nominal value of every tag with a byte or integer encoding survives a build and a parse. */
  lemma NomValRoundTrip(att: string)
    requires att == CH || Kind(att) in {"X", "C"} || IntTag(att)
    requires NomVal(att).Ok?
    ensures ValToBytes(NomVal(att).value, att).Ok?
    ensures BytesToVal(ValToBytes(NomVal(att).value, att).value, att) == NomVal(att)
  {
    if IntTag(att) {
      IntValRoundTrip(0, att);
    }
  }

  /** The three-digit width of a four-character tag. */
  lemma TagWidth(att: string, w: nat)
    requires |att| == 4 && att != CH
    requires forall i :: 1 <= i < 4 ==> IsDigit(att[i])
    requires w == 100 * (att[1] as int - '0' as int) + 10 * (att[2] as int - '0' as int) + (att[3] as int - '0' as int)
    ensures AttSiz(att) == Ok(w)
  {
    assert Slice(att, 1, 4) == att[1..4];
    DecimalValue3(att[1..4]);
  }

  lemma EncodeExamples()
    ensures ValToBytes(Int(2345), "U002") == Ok([0x29, 0x09])
    ensures ValToBytes(Int(-2346789), "I004") == Ok([0xdb, 0x30, 0xdc, 0xff])
    ensures ValToBytes(Bytes([0x44, 0x55]), "X002") == Ok([0x44, 0x55])
    ensures ValToBytes(Text([0x58]), "U008") == Err(PyTypeError)
    ensures ValToBytes(Int(0), "Y008") == Err(SBFTypeError(UnknownAttributeType("Y008")))
  {
    TagWidth("U002", 2);
    TagWidth("I004", 4);
    assert Pow256(2) == 0x10000;
    assert Pow256(4) == 0x1_0000_0000;
    assert LittleEndian(2345, 2) == [0x29, 0x09];
    assert LittleEndian(0x1_0000_0000 - 2346789, 4) == [0xdb, 0x30, 0xdc, 0xff];
  }

  lemma DecodeExamples()
    ensures BytesToVal([0x29, 0x09], "U002") == Ok(Int(2345))
    ensures BytesToVal([0xdb, 0x30, 0xdc, 0xff], "I004") == Ok(Int(-2346789))
    ensures BytesToVal([0x44, 0x55], "X002") == Ok(Bytes([0x44, 0x55]))
    ensures BytesToVal([], "Y008") == Err(SBFTypeError(UnknownAttributeType("Y008")))
  {
    assert Pow256(4) == 0x1_0000_0000;
    assert FromLE([0xdb, 0x30, 0xdc, 0xff]) == 0x1_0000_0000 - 2346789;
  }

  lemma NomValExamples()
    ensures NomVal("U002") == Ok(Int(0)) && NomVal("I002") == Ok(Int(0))
    ensures NomVal("C003") == Ok(Bytes([0, 0, 0]))
    ensures NomVal("X002") == Ok(Bytes([0, 0])) && NomVal("P002") == Ok(Bytes([0, 0]))
    ensures NomVal("Y008") == Err(SBFTypeError(UnknownAttributeType("Y008")))
  {
    TagWidth("C003", 3);
    TagWidth("X002", 2);
    TagWidth("P002", 2);
    assert Zeros(3) == [0, 0, 0];
    assert Zeros(2) == [0, 0];
  }

  // ------------------------------------------------------- block ids

  /** `(mid & 0xE000) >> 13` for a Python int `mid` of any sign. */
  function RevBits(mid: int): nat
  {
    (mid % 0x10000) / 0x2000
  }

  /** bytes2id: the little-endian value split into a 13-bit id and the 3 bits above it. */
  function Bytes2Id(b: seq<byte>): (r: (int, int))
    ensures 0 <= r.0 < 0x2000 && 0 <= r.1 < 8
  {
    var mid := FromLE(b);
    (mid % 0x2000, RevBits(mid))
  }

  /** For a 2-byte id the two halves recombine to the little-endian value. */
  lemma Bytes2IdSplit(b: seq<byte>)
    requires |b| == 2
    ensures Bytes2Id(b).0 + 0x2000 * Bytes2Id(b).1 == FromLE(b)
    ensures Bytes2Id(b).0 == FromLE(b) % 0x2000 && Bytes2Id(b).1 == FromLE(b) / 0x2000
  {
    FromLEBound(b);
    assert Pow256(2) == 0x10000;
  }

  /** crc2bytes: the checksum as 2 little-endian bytes. */
  function Crc2Bytes(m: seq<byte>): (r: seq<byte>)
    ensures |r| == 2
  {
    CrcBound(m);
    LittleEndian(Crc(m), 2)
  }

  lemma Crc2BytesValue(m: seq<byte>)
    ensures |Crc2Bytes(m)| == 2
    ensures FromLE(Crc2Bytes(m)) == Crc(m)
    ensures ToBytes(Crc(m), 2, false) == Ok(Crc2Bytes(m))
  {
    CrcBound(m);
    TwoBytes(Crc(m));
  }

  /**
   * escapeall applied to a `str`: every character is formatted with `:02x`,
   * which only integers accept, so any character raises a ValueError; the
   * empty string formats as `b''`.
   */
  function EscapeAll(s: string): (r: Result<string>)
    ensures r.Ok? <==> s == ""
  {
    if s == "" then Ok("b''") else Err(PyValueError)
  }

  /** crc2bytes computed by calc_crc's loops, then two little-endian bytes. */
  method CrcToBytes(m: seq<byte>) returns (r: seq<byte>)
    ensures r == Crc2Bytes(m)
  {
    var c := CalcCrc(m);
    Crc2BytesValue(m);
    r := ToBytes(c, 2, false).value;
  }

  lemma TwoBytes(c: nat)
    requires c < 0x10000
    ensures FromLE(LittleEndian(c, 2)) == c
    ensures ToBytes(c, 2, false) == Ok(LittleEndian(c, 2))
  {
    assert Pow256(2) == 0x10000;
    ToBytesThenFrom(c, 2, false);
  }

  /** Two messages with different checksums have different checksum bytes. */
  lemma Crc2BytesInjective(m: seq<byte>, n: seq<byte>)
    requires Crc(m) != Crc(n)
    ensures Crc2Bytes(m) != Crc2Bytes(n)
  {
    Crc2BytesValue(m);
    Crc2BytesValue(n);
  }

  // ----------------------------------------------------------- padding

  /** getpadding: the bytes 1, 2, 3, ... `length` of them; a byte above 255 overflows. */
  function Padding(length: int): (r: Result<seq<byte>>)
  {
    if length > 255 then Err(PyOverflowError)
    else Ok(seq(if length < 0 then 0 else length, i requires 0 <= i < 255 => i + 1))
  }

  lemma PaddingContents(length: int)
    ensures Padding(length).Ok? <==> length <= 255
    ensures Padding(length).Ok? ==> |Padding(length).value| == (if length < 0 then 0 else length)
    ensures Padding(length).Ok? ==> forall i :: 0 <= i < |Padding(length).value| ==> Padding(length).value[i] == i + 1
    ensures Padding(2) == Ok([1, 2]) && Padding(4) == Ok([1, 2, 3, 4])
  {
    assert Padding(2).value == [1, 2];
    assert Padding(4).value == [1, 2, 3, 4];
  }

  /** sbfhelpers.getpadding: appends `int.to_bytes(i + 1, 1)` for each `i` in `range(length)`. */
  method GetPadding(length: int) returns (r: Result<seq<byte>>)
    ensures r == Padding(length)
  {
    var pad: seq<byte> := [];
    var i := 0;
    while i < length
      invariant 0 <= i <= (if length < 0 then 0 else length)
      invariant i <= 255
      invariant |pad| == i && forall k :: 0 <= k < i ==> pad[k] == k + 1
    {
      var b :- ToBytes(i + 1, 1, false);
      assert b == [i + 1];
      pad := pad + b;
      i := i + 1;
    }
    assert pad == Padding(length).value;
    r := Ok(pad);
  }

  // ---------------------------------------------------- table lookups

  /** The position of the first pair whose second component is `v`, if any. */
  function FirstWith<K, V(==)>(d: seq<(K, V)>, v: V): (r: Option<nat>)
    ensures r.Some? ==> r.value < |d| && d[r.value].1 == v
    ensures r.Some? ==> forall j :: 0 <= j < r.value ==> d[j].1 != v
    ensures r.None? ==> forall j :: 0 <= j < |d| ==> d[j].1 != v
    decreases |d|
  {
    if d == [] then None
    else if d[0].1 == v then Some(0)
    else match FirstWith(d[1..], v)
      case None => None
      case Some(k) => Some(k + 1)
  }

  /** msgid2bytes: the 2-byte little-endian key of the first entry named `name`. */
  function MsgIdBytes(t: seq<(int, string)>, name: string): (r: Result<seq<byte>>)
    ensures r.Ok? ==> |r.value| == 2
    ensures (forall j :: 0 <= j < |t| ==> t[j].1 != name) ==> r == Err(SBFMessageError(NoIdForName(name)))
  {
    match FirstWith(t, name)
    case None => Err(SBFMessageError(NoIdForName(name)))
    case Some(k) => ToBytes(t[k].0, 2, false)
  }

  /** sbfhelpers.msgid2bytes: scan the table in order and return at the first match. */
  method MsgIdToBytes(t: seq<(int, string)>, name: string) returns (r: Result<seq<byte>>)
    ensures r == MsgIdBytes(t, name)
  {
    var i := 0;
    while i < |t|
      invariant 0 <= i <= |t|
      invariant forall j :: 0 <= j < i ==> t[j].1 != name
    {
      if t[i].1 == name {
        r := ToBytes(t[i].0, 2, false);
        return;
      }
      i := i + 1;
    }
    r := Err(SBFMessageError(NoIdForName(name)));
  }

  /** A table of 16-bit keys: what SBF_MSGIDS is. */
  predicate KeysFit(t: seq<(int, string)>)
  {
    forall j :: 0 <= j < |t| ==> 0 <= t[j].0 < 0x10000
  }

  /** A known name gives the 2-byte key of its first entry; an unknown one is a message error. */
  lemma MsgIdBytesSpec(t: seq<(int, string)>, name: string)
    requires KeysFit(t)
    ensures MsgIdBytes(t, name).Ok? <==> exists j :: 0 <= j < |t| && t[j].1 == name
    ensures MsgIdBytes(t, name).Err? ==> MsgIdBytes(t, name) == Err(SBFMessageError(NoIdForName(name)))
    ensures MsgIdBytes(t, name).Ok? ==>
      var k := FirstWith(t, name).value;
      |MsgIdBytes(t, name).value| == 2 && FromLE(MsgIdBytes(t, name).value) == t[k].0
  {
    assert Pow256(2) == 0x10000;
    match FirstWith(t, name)
    case None =>
    case Some(k) =>
      ToBytesThenFrom(t[k].0, 2, false);
  }

  lemma MsgIdBytesExample(t: seq<(int, string)>)
    requires |t| > 0 && t[0] == (4006, "PVTCartesian")
    ensures MsgIdBytes(t, "PVTCartesian") == Ok([0xa6, 0x0f])
  {
    assert FirstWith(t, "PVTCartesian") == Some(0);
    TwoBytes(4006);
    assert LittleEndian(4006, 2) == [0xa6, 0x0f];
  }

  /** sbfhelpers.key_from_val: scan the items in order; KeyError when no value matches. */
  method KeyFromVal<K, V(==)>(d: seq<(K, V)>, value: V) returns (r: Result<K>)
    ensures r.Ok? <==> FirstWith(d, value).Some?
    ensures r.Ok? ==> r.value == d[FirstWith(d, value).value].0
    ensures r.Err? ==> r.error == PyKeyError
  {
    var i := 0;
    while i < |d|
      invariant 0 <= i <= |d|
      invariant forall j :: 0 <= j < i ==> d[j].1 != value
    {
      if d[i].1 == value {
        r := Ok(d[i].0);
        return;
      }
      i := i + 1;
    }
    r := Err(PyKeyError);
  }
}
