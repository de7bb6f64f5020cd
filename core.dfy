// Shared vocabulary of the SBF (Septentrio Binary Format) codec model:
// bytes, results, the exceptions the library raises, attribute values,
// the shape of a block schema, and the protocol constants.

module SbfCore {

  /** One octet, as Python's `bytes` holds it. */
  type byte = b: int | 0 <= b < 256

  datatype Option<T> = None | Some(value: T)
  {
    function GetOr(default: T): T
    {
      match this
      case None => default
      case Some(v) => v
    }
  }

  /**
   * The exceptions the modelled code can raise. Built-in Python exceptions
   * carry no payload; the library's own exceptions carry the facts their
   * message texts are formatted from.
   */
  datatype Error =
    | PyTypeError
    | PyValueError
    | PyOverflowError
    | PyAttributeError
    | PyIndexError
    | PyKeyError
    | PyUnboundLocalError
    | PyEOFError
    | StopIteration
    | SBFTypeError(reason: TypeReason)
    | SBFMessageError(why: MessageReason)
    | SBFParseError(header: seq<byte>)
    | SBFStreamError(stream: StreamReason)
    | NMEAError
    | Unmodelled(tag: string)

  datatype TypeReason =
    | UnknownAttributeType(tag: string)
    | IncorrectType(attribute: string, identity: string)
    | OverflowFor(attribute: string, identity: string)

  datatype MessageReason =
    | UnknownMessageId(id: int)
    | UnknownMessageType(name: string)
    | NoIdForName(name: string)
    | Immutable(name: string)
    | InvalidCrc(crc: seq<byte>, expected: seq<byte>)

  datatype StreamReason =
    | BytesTruncated(requested: int, returned: nat)
    | LineTruncated(returned: nat)

  datatype Result<T> = Ok(value: T) | Err(error: Error)
  {
    predicate IsFailure() { Err? }

    function PropagateFailure<U>(): Result<U>
      requires Err?
    {
      Err(error)
    }

    function Extract(): T
      requires Ok?
    {
      value
    }
  }

  /**
   * An attribute value: a Python `int`, a `bytes` object, or a `str`, the
   * last held as the bytes of its UTF-8 encoding.
   */
  datatype Value = Int(i: int) | Bytes(b: seq<byte>) | Text(utf8: seq<byte>)

  /**
   * One entry of a block schema (an ordered payload dictionary).
   * `Scalar(name, tag)` maps a name to a type tag such as "U002".
   * `Tuple(name, head, body)` maps a name to a pair `(head, dict)`: when the
   * head is one of the bitfield tags it is a bitfield whose `body` lists the
   * flags; otherwise it is a repeating group whose count is the head.
   */
  datatype Entry =
    | Scalar(name: string, tag: string)
    | Tuple(name: string, head: Head, body: seq<Entry>)

  /** The first element of a schema pair: a literal count or a string. */
  datatype Head = Count(n: int) | Ref(s: string)

  /** Keyword arguments of the message constructor; `payload` selects parse mode. */
  datatype KwargsRaw = KwargsRaw(payload: Option<seq<byte>>, named: map<string, Value>)

  /** The `payload` keyword is held apart from the attribute keywords. */
  type Kwargs = k: KwargsRaw | "payload" !in k.named
    witness KwargsRaw(None, map[])

  /** `len(kwargs) == 0`. */
  predicate NoKwargs(kw: Kwargs)
  {
    kw.payload.None? && |kw.named| == 0
  }

  /**
   * The lookup data the library keeps as module globals: the block id table
   * (`SBF_MSGIDS`, in its iteration order) and the block schemas by name.
   */
  datatype Tables = Tables(msgids: seq<(int, string)>, blocks: map<string, seq<Entry>>)

  const SBF_HDR: seq<byte> := [0x24, 0x40]
  const CH: string := "CH"
  const U2: string := "U002"
  const BITFIELD_TAGS: set<string> := {"X001", "X002", "X004", "X006", "X008", "X024"}

  const ERR_IGNORE: int := 0
  const ERR_LOG: int := 1
  const ERR_RAISE: int := 2

  const NMEA_PROTOCOL: int := 1
  const SBF_PROTOCOL: int := 2
  const RTCM3_PROTOCOL: int := 4

  const VALNONE: int := 0
  const VALCKSUM: int := 1

  /** `1 << n`. */
  function Pow2(n: nat): (r: nat)
    ensures r >= 1
  {
    if n == 0 then 1 else 2 * Pow2(n - 1)
  }

  /** Python's `s[i:j]` for non-negative bounds: both ends are clamped. */
  function Slice<T>(s: seq<T>, i: nat, j: nat): (r: seq<T>)
    ensures |r| <= |s|
    ensures i <= j <= |s| ==> r == s[i..j]
    ensures j <= i || |s| <= i ==> r == []
  {
    var lo := if i < |s| then i else |s|;
    var hi := if j < lo then lo else if j < |s| then j else |s|;
    s[lo..hi]
  }

  /** Python's `s[i:]` for a non-negative start. */
  function From<T>(s: seq<T>, i: nat): (r: seq<T>)
    ensures i <= |s| ==> r == s[i..]
    ensures |s| <= i ==> r == []
  {
    if i < |s| then s[i..] else []
  }
}
