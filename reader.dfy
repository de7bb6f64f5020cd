// sbfreader.py: SBFReader reads a byte stream, discards bytes until a '$',
// frames an SBF block by its length field (or an NMEA sentence by its line
// end), applies the protocol filter, and deals with errors as its
// `quitonerror` setting says. The static `parse` checks the checksum and
// builds the message from the block id and the payload.
//
// The stream is a byte sequence and a read position. The functions below
// state one pass of the reading loop and the whole loop on values; the
// class SBFReader runs the loop over its fields and is proved to do what
// they say.

module SbfReader {
  import opened SbfCore
  import opened SbfHelpers
  import opened SbfMessage

  /** What `quitonerror = ERR_LOG` does with an error: pass it to the handler, or log it when there is none. */
  datatype Report = Handled(err: Error) | Logged(err: Error)

  /** The second element of a `read()` result: nothing parsed, an SBF message, or an NMEA sentence the NMEA parser accepted. */
  datatype Parsed = NotParsed | Sbf(msg: Msg) | Nmea(sentence: seq<byte>)

  /** A `read()` result: `(None, None)` at the end of the stream, or the raw bytes and what was parsed from them. */
  datatype ReadResult = Eof | Frame(raw: seq<byte>, parsed: Parsed)

  /**
   * The reader settings. The NMEA parser lives in another library: it is
   * represented by the set of 2-byte NMEA headers and by which complete
   * sentences it accepts.
   */
  datatype Config = Config(
    validate: int,
    protfilter: int,
    quitonerror: int,
    parsing: bool,
    hasHandler: bool,
    nmeaHeaders: set<seq<byte>>,
    nmeaAccepts: seq<byte> -> bool,
    tables: Tables)

  /** `x & (1 << k) != 0` for a Python int of any sign. */
  predicate Bit(x: int, k: nat)
  {
    (x / Pow2(k)) % 2 == 1
  }

  // -------------------------------------------------------- the stream

  function Min(a: int, b: int): int
  {
    if a < b then a else b
  }

  /** `stream.read(n)`: the next `n` bytes or as many as remain; every remaining byte for a negative `n`. */
  function StreamRead(s: seq<byte>, pos: nat, n: int): (r: seq<byte>)
    requires pos <= |s|
    ensures n >= 0 ==> |r| == Min(n, |s| - pos)
    ensures n < 0 ==> |r| == |s| - pos
    ensures pos + |r| <= |s| && r == s[pos..pos + |r|]
  {
    if n < 0 || pos + n > |s| then s[pos..] else s[pos..pos + n]
  }

  /** _read_bytes: a read of exactly `n` bytes; EOFError when none came, SBFStreamError when too few came. */
  function ReadBytes(s: seq<byte>, pos: nat, n: int): (r: (Result<seq<byte>>, nat))
    requires pos <= |s|
    ensures pos <= r.1 <= |s|
    ensures r.0 == Err(PyEOFError) <==> n == 0 || pos == |s|
    ensures r.0.Ok? <==> n != 0 && pos < |s| && (n < 0 || pos + n <= |s|)
    ensures r.0.Ok? ==> r.1 > pos && r.0.value == s[pos..r.1] && (n < 0 ==> r.1 == |s|) && (n > 0 ==> |r.0.value| == n)
    ensures r.0.Err? && r.0 != Err(PyEOFError) ==> r == (Err(SBFStreamError(BytesTruncated(n, |s| - pos))), |s|)
  {
    var data := StreamRead(s, pos, n);
    if |data| == 0 then (Err(PyEOFError), pos)
    else if |data| < n then (Err(SBFStreamError(BytesTruncated(n, |data|))), pos + |data|)
    else (Ok(data), pos + |data|)
  }

  /** Where `stream.readline()` stops: just after the next 0x0A, or at the end of the stream. */
  function LineEnd(s: seq<byte>, pos: nat): (j: nat)
    requires pos <= |s|
    ensures pos <= j <= |s|
    ensures forall k :: pos <= k < j - 1 ==> s[k] != 0x0A
    ensures j < |s| ==> j > pos && s[j - 1] == 0x0A
    ensures j == |s| && j > pos && s[j - 1] != 0x0A ==> forall k :: pos <= k < j ==> s[k] != 0x0A
    decreases |s| - pos
  {
    if pos == |s| then pos
    else if s[pos] == 0x0A then pos + 1
    else LineEnd(s, pos + 1)
  }

  /** _read_line: a line that ends in 0x0A; EOFError when none came, SBFStreamError when the stream ended first. */
  function ReadLine(s: seq<byte>, pos: nat): (r: (Result<seq<byte>>, nat))
    requires pos <= |s|
    ensures pos <= r.1 <= |s|
    ensures r.0 == Err(PyEOFError) <==> pos == |s|
    ensures r.0.Ok? ==> r.1 > pos && r.0.value == s[pos..r.1] && s[r.1 - 1] == 0x0A
    ensures r.0.Ok? ==> forall k :: pos <= k < r.1 - 1 ==> s[k] != 0x0A
    ensures r.0.Ok? <==> exists k :: pos <= k < |s| && s[k] == 0x0A
    ensures !r.0.Ok? && r.0 != Err(PyEOFError) ==> r == (Err(SBFStreamError(LineTruncated(|s| - pos))), |s|)
  {
    var j := LineEnd(s, pos);
    var data := s[pos..j];
    if |data| == 0 then (Err(PyEOFError), j)
    else if data[|data| - 1] != 0x0A then (Err(SBFStreamError(LineTruncated(|data|))), j)
    else (Ok(data), j)
  }

  // ------------------------------------------------------------ parse

  /**
   * SBFReader.parse: the checksum of everything after byte 4 is compared
   * with bytes 2-4 (a mismatch is an error when the validate bit is set);
   * the id comes from bytes 4-6 and the payload is everything from byte 8.
   */
  function Parse(message: seq<byte>, validate: int, t: Tables): (r: Result<Msg>)
    ensures Bit(validate, 0) && Crc2Bytes(From(message, 4)) != Slice(message, 2, 4) ==>
      r == Err(SBFMessageError(InvalidCrc(Slice(message, 2, 4), Crc2Bytes(From(message, 4)))))
    ensures r.Ok? ==> r.value.parsebf && r.value.payload.Some?
    ensures !(Bit(validate, 0) && Crc2Bytes(From(message, 4)) != Slice(message, 2, 4)) ==>
      var id := Bytes2Id(Slice(message, 4, 6));
      r == Construct(ById(id.0), id.1, true, PayloadOnly(From(message, 8)), t)
  {
    var crc := Slice(message, 2, 4);
    var crccheck := Crc2Bytes(From(message, 4));
    if crccheck != crc && Bit(validate, 0) then Err(SBFMessageError(InvalidCrc(crc, crccheck)))
    else
      var id := Bytes2Id(Slice(message, 4, 6));
      Construct(ById(id.0), id.1, true, PayloadOnly(From(message, 8)), t)
  }

  // ------------------------------------------------- framing and loop

  /** _parse_sbf: 6 header bytes, then the length field less 8 payload bytes, then `parse` if SBF passes the filter. */
  function ParseSbf(c: Config, s: seq<byte>, pos: nat, hdr: seq<byte>): (r: (Result<(seq<byte>, Parsed)>, nat))
    requires pos <= |s|
    ensures pos <= r.1 <= |s|
  {
    var (byten, p1) := ReadBytes(s, pos, 6);
    if byten.Err? then (Err(byten.error), p1)
    else
      var leni := FromLE(byten.value[4..6]) - 8;
      var (plb, p2) := ReadBytes(s, p1, leni);
      if plb.Err? then (Err(plb.error), p2)
      else
        var raw := hdr + byten.value[0..2] + byten.value[2..4] + byten.value[4..6] + plb.value;
        if Bit(c.protfilter, 1) && c.parsing then
          match Parse(raw, c.validate, c.tables)
          case Err(e) => (Err(e), p2)
          case Ok(m) => (Ok((raw, Sbf(m))), p2)
        else (Ok((raw, NotParsed)), p2)
  }

  /** _parse_nmea: the rest of the line, then the NMEA parser if NMEA passes the filter. */
  function ParseNmea(c: Config, s: seq<byte>, pos: nat, hdr: seq<byte>): (r: (Result<(seq<byte>, Parsed)>, nat))
    requires pos <= |s|
    ensures pos <= r.1 <= |s|
  {
    var (line, p1) := ReadLine(s, pos);
    if line.Err? then (Err(line.error), p1)
    else
      var raw := hdr + line.value;
      if Bit(c.protfilter, 0) && c.parsing then
        (if c.nmeaAccepts(raw) then (Ok((raw, Nmea(raw))), p1) else (Err(NMEAError), p1))
      else (Ok((raw, NotParsed)), p1)
  }

  /** The errors `read()` catches besides EOFError (the NMEA and RTCM ones are all NMEAError here). */
  predicate Caught(e: Error)
  {
    e.SBFMessageError? || e.SBFTypeError? || e.SBFParseError? || e.SBFStreamError? || e.NMEAError?
  }

  /** How one pass of the `read()` loop ends: go round again, or leave `read()` with a result or an exception. */
  datatype Step =
    | Continue(pos: nat, reports: seq<Report>)
    | Return(result: Result<ReadResult>, pos: nat, reports: seq<Report>)

  /**
   * The `except` clauses of `read()` together with _do_error: EOFError ends
   * the stream, an error of another kind leaves `read()`, and a caught error
   * is passed over (0), reported (1) or raised again (2).
   */
  function Handle(c: Config, e: Error, pos: nat, reps: seq<Report>): (r: Step)
    ensures r.pos == pos
    ensures e == PyEOFError ==> r == Return(Ok(Eof), pos, reps)
    ensures e != PyEOFError && !Caught(e) ==> r == Return(Err(e), pos, reps)
    ensures Caught(e) && c.quitonerror == ERR_RAISE ==> r == Return(Err(e), pos, reps)
    ensures Caught(e) && c.quitonerror == ERR_LOG ==>
      r == Continue(pos, reps + [if c.hasHandler then Handled(e) else Logged(e)])
    ensures Caught(e) && c.quitonerror != ERR_RAISE && c.quitonerror != ERR_LOG ==> r == Continue(pos, reps)
  {
    if e == PyEOFError then Return(Ok(Eof), pos, reps)
    else if !Caught(e) then Return(Err(e), pos, reps)
    else if c.quitonerror == 0 then Continue(pos, reps)
    else if c.quitonerror == ERR_RAISE then Return(Err(e), pos, reps)
    else if c.quitonerror == ERR_LOG then Continue(pos, reps + [if c.hasHandler then Handled(e) else Logged(e)])
    else Continue(pos, reps)
  }

  /** One pass of the `read()` loop. */
  function ReadStep(c: Config, s: seq<byte>, pos: nat, reps: seq<Report>): (r: Step)
    requires pos <= |s|
    ensures pos <= r.pos <= |s|
    ensures r.Continue? ==> r.pos > pos
  {
    var (b1, p1) := ReadBytes(s, pos, 1);
    if b1.Err? then Handle(c, b1.error, p1, reps)
    else if b1.value != [0x24] then Continue(p1, reps)
    else
      var (b2, p2) := ReadBytes(s, p1, 1);
      if b2.Err? then Handle(c, b2.error, p2, reps)
      else
        var hdr := b1.value + b2.value;
        if hdr == SBF_HDR then
          var (f, p3) := ParseSbf(c, s, p2, hdr);
          if f.Err? then Handle(c, f.error, p3, reps)
          else if Bit(c.protfilter, 1) then Return(Ok(Frame(f.value.0, f.value.1)), p3, reps)
          else Continue(p3, reps)
        else if hdr in c.nmeaHeaders then
          var (f, p3) := ParseNmea(c, s, p2, hdr);
          if f.Err? then Handle(c, f.error, p3, reps)
          else if Bit(c.protfilter, 0) then Return(Ok(Frame(f.value.0, f.value.1)), p3, reps)
          else Continue(p3, reps)
        else Handle(c, SBFParseError(hdr), p2, reps)
  }

  /** SBFReader.read: passes of the loop until one returns; the result, the new position and the reports. */
  function ReadFrom(c: Config, s: seq<byte>, pos: nat, reps: seq<Report>): (r: (Result<ReadResult>, nat, seq<Report>))
    requires pos <= |s|
    ensures pos <= r.1 <= |s|
    decreases |s| - pos
  {
    match ReadStep(c, s, pos, reps)
    case Return(res, p, rs) => (res, p, rs)
    case Continue(p, rs) => ReadFrom(c, s, p, rs)
  }

  // --------------------------------------------------------- the class

  class SBFReader {
    const stream: seq<byte>
    const validate: int
    const protfilter: int
    const quitonerror: int
    const parsing: bool
    const hasHandler: bool
    const nmeaHeaders: set<seq<byte>>
    const nmeaAccepts: seq<byte> -> bool
    const tables: Tables
    /** How far the stream has been read. */
    var pos: nat
    /** What the error handler or the logger has been given, in order. */
    var reports: seq<Report>

    predicate Valid()
      reads this
    {
      pos <= |stream|
    }

    function Cfg(): Config
    {
      Config(validate, protfilter, quitonerror, parsing, hasHandler, nmeaHeaders, nmeaAccepts, tables)
    }

    /** SBFReader(datastream, validate, protfilter, quitonerror, parsing=..., errorhandler=...). */
    constructor (datastream: seq<byte>, validate: int, protfilter: int, quitonerror: int, parsing: bool,
                 hasHandler: bool, nmeaHeaders: set<seq<byte>>, nmeaAccepts: seq<byte> -> bool, tables: Tables)
      ensures Valid() && pos == 0 && reports == [] && stream == datastream
      ensures Cfg() == Config(validate, protfilter, quitonerror, parsing, hasHandler, nmeaHeaders, nmeaAccepts, tables)
    {
      stream := datastream;
      this.validate := validate;
      this.protfilter := protfilter;
      this.quitonerror := quitonerror;
      this.parsing := parsing;
      this.hasHandler := hasHandler;
      this.nmeaHeaders := nmeaHeaders;
      this.nmeaAccepts := nmeaAccepts;
      this.tables := tables;
      pos := 0;
      reports := [];
    }

    /** _read_bytes. */
    method ReadBytesM(size: int) returns (r: Result<seq<byte>>)
      requires Valid()
      modifies this
      ensures Valid() && reports == old(reports)
      ensures (r, pos) == ReadBytes(stream, old(pos), size)
    {
      var data := StreamRead(stream, pos, size);
      pos := pos + |data|;
      if |data| == 0 {
        r := Err(PyEOFError);
        return;
      }
      if 0 < |data| < size {
        r := Err(SBFStreamError(BytesTruncated(size, |data|)));
        return;
      }
      r := Ok(data);
    }

    /** _read_line. */
    method ReadLineM() returns (r: Result<seq<byte>>)
      requires Valid()
      modifies this
      ensures Valid() && reports == old(reports)
      ensures (r, pos) == ReadLine(stream, old(pos))
    {
      var j := LineEnd(stream, pos);
      var data := stream[pos..j];
      pos := j;
      if |data| == 0 {
        r := Err(PyEOFError);
        return;
      }
      if data[|data| - 1] != 0x0A {
        r := Err(SBFStreamError(LineTruncated(|data|)));
        return;
      }
      r := Ok(data);
    }

    /** _parse_sbf. */
    method ParseSbfM(hdr: seq<byte>) returns (r: Result<(seq<byte>, Parsed)>)
      requires Valid()
      modifies this
      ensures Valid() && reports == old(reports)
      ensures (r, pos) == ParseSbf(Cfg(), stream, old(pos), hdr)
    {
      var byten :- ReadBytesM(6);
      var crc := byten[0..2];
      var msgid := byten[2..4];
      var lenb := byten[4..6];
      var leni := FromLE(lenb) - 8;
      var plb :- ReadBytesM(leni);
      var raw := hdr + crc + msgid + lenb + plb;
      if Bit(protfilter, 1) && parsing {
        var m :- Parse(raw, validate, tables);
        r := Ok((raw, Sbf(m)));
      } else {
        r := Ok((raw, NotParsed));
      }
    }

    /** _parse_nmea. */
    method ParseNmeaM(hdr: seq<byte>) returns (r: Result<(seq<byte>, Parsed)>)
      requires Valid()
      modifies this
      ensures Valid() && reports == old(reports)
      ensures (r, pos) == ParseNmea(Cfg(), stream, old(pos), hdr)
    {
      var byten :- ReadLineM();
      var raw := hdr + byten;
      if Bit(protfilter, 0) && parsing {
        if !nmeaAccepts(raw) {
          r := Err(NMEAError);
          return;
        }
        r := Ok((raw, Nmea(raw)));
      } else {
        r := Ok((raw, NotParsed));
      }
    }

    /** _do_error: raise again, or report to the handler (or the log). */
    method DoError(err: Error) returns (r: Result<()>)
      modifies this
      ensures pos == old(pos)
      ensures quitonerror == ERR_RAISE ==> r == Err(err) && reports == old(reports)
      ensures quitonerror == ERR_LOG ==> r == Ok(()) && reports == old(reports) + [if hasHandler then Handled(err) else Logged(err)]
      ensures quitonerror != ERR_RAISE && quitonerror != ERR_LOG ==> r == Ok(()) && reports == old(reports)
    {
      if quitonerror == ERR_RAISE {
        r := Err(err);
        return;
      }
      if quitonerror == ERR_LOG {
        if !hasHandler {
          reports := reports + [Logged(err)];
        } else {
          reports := reports + [Handled(err)];
        }
      }
      r := Ok(());
    }

    /** The `except` clauses of `read()`: whether `read()` is left, and with what. */
    method Except(err: Error) returns (leave: bool, r: Result<ReadResult>)
      modifies this
      ensures pos == old(pos)
      ensures var h := Handle(Cfg(), err, pos, old(reports));
        (leave <==> h.Return?) && (leave ==> r == h.result) && reports == h.reports
    {
      r := Ok(Eof);
      if err == PyEOFError {
        leave := true;
        return;
      }
      if !Caught(err) {
        leave, r := true, Err(err);
        return;
      }
      leave := false;
      if quitonerror != 0 {
        var d := DoError(err);
        if d.Err? {
          leave, r := true, Err(d.error);
        }
      }
    }

    /** SBFReader.read. */
    method Read() returns (r: Result<ReadResult>)
      requires Valid()
      modifies this
      ensures Valid()
      ensures (r, pos, reports) == ReadFrom(Cfg(), stream, old(pos), old(reports))
    {
      while true
        invariant Valid()
        invariant ReadFrom(Cfg(), stream, pos, reports) == ReadFrom(Cfg(), stream, old(pos), old(reports))
        decreases |stream| - pos
      {
        ghost var p0, reps0 := pos, reports;
        var byte1 := ReadBytesM(1);
        if byte1.Err? {
          var leave, res := Except(byte1.error);
          if leave {
            r := res;
            return;
          }
          continue;
        }
        if byte1.value != [0x24] {
          continue;
        }
        var byte2 := ReadBytesM(1);
        if byte2.Err? {
          var leave, res := Except(byte2.error);
          if leave {
            r := res;
            return;
          }
          continue;
        }
        var bytehdr := byte1.value + byte2.value;
        if bytehdr == SBF_HDR {
          var f := ParseSbfM(bytehdr);
          if f.Err? {
            var leave, res := Except(f.error);
            if leave {
              r := res;
              return;
            }
            continue;
          }
          if Bit(protfilter, 1) {
            r := Ok(Frame(f.value.0, f.value.1));
            return;
          }
          continue;
        } else if bytehdr in nmeaHeaders {
          var f := ParseNmeaM(bytehdr);
          if f.Err? {
            var leave, res := Except(f.error);
            if leave {
              r := res;
              return;
            }
            continue;
          }
          if Bit(protfilter, 0) {
            r := Ok(Frame(f.value.0, f.value.1));
            return;
          }
          continue;
        } else if byte1.value == [0xd3] {
          // The RTCM3 branch: the first byte here is always 0x24.
          assert false;
        }
        var leave, res := Except(SBFParseError(bytehdr));
        if leave {
          r := res;
          return;
        }
      }
    }

    /** SBFReader.__next__: StopIteration at the end of the stream. */
    method Next() returns (r: Result<(seq<byte>, Parsed)>)
      requires Valid()
      modifies this
      ensures Valid()
      ensures var spec := ReadFrom(Cfg(), stream, old(pos), old(reports));
        pos == spec.1 && reports == spec.2
        && (spec.0 == Ok(Eof) ==> r == Err(StopIteration))
        && (spec.0.Ok? && spec.0.value.Frame? ==> r == Ok((spec.0.value.raw, spec.0.value.parsed)))
        && (spec.0.Err? ==> r == Err(spec.0.error))
    {
      var res := Read();
      if res.Err? {
        r := Err(res.error);
        return;
      }
      if res.value.Eof? {
        r := Err(StopIteration);
        return;
      }
      r := Ok((res.value.raw, res.value.parsed));
    }
  }
}
