// Properties of the stream reader: what the loop skips, how it frames an
// SBF block, what each error policy does, what `parse` accepts and
// refuses, and how it fits together with `serialize`.

module SbfReaderProps {
  import opened SbfCore
  import opened SbfCrc
  import opened SbfHelpers
  import opened SbfMessage
  import opened SbfMessageProps
  import opened SbfReader

  /** A read of one byte in the stream gives that byte. */
  lemma ReadOne(s: seq<byte>, pos: nat)
    requires pos < |s|
    ensures ReadBytes(s, pos, 1) == (Ok([s[pos]]), pos + 1)
  {
    assert s[pos..pos + 1] == [s[pos]];
  }

  // --------------------------------------------------------- skipping

  /** Bytes other than '$' are passed over one by one, with nothing reported. */
  lemma {:induction false} ReadSkipsNoise(c: Config, s: seq<byte>, pos: nat, j: nat, reps: seq<Report>)
    requires pos <= j <= |s|
    requires forall k :: pos <= k < j ==> s[k] != 0x24
    ensures ReadFrom(c, s, pos, reps) == ReadFrom(c, s, j, reps)
    decreases j - pos
  {
    if pos < j {
      ReadOne(s, pos);
      assert [s[pos]] != [0x24 as byte];
      assert ReadStep(c, s, pos, reps) == Continue(pos + 1, reps);
      ReadSkipsNoise(c, s, pos + 1, j, reps);
    }
  }

  /** A stream with no '$' left reads as the end of the stream: `(None, None)`, whatever the error policy. */
  lemma NoHeaderMeansEof(c: Config, s: seq<byte>, pos: nat, reps: seq<Report>)
    requires pos <= |s|
    requires forall k :: pos <= k < |s| ==> s[k] != 0x24
    ensures ReadFrom(c, s, pos, reps) == (Ok(Eof), |s|, reps)
  {
    ReadSkipsNoise(c, s, pos, |s|, reps);
  }

  /**
   * A '$' followed by a byte that starts neither SBF nor NMEA is an unknown
   * protocol header: with ERR_RAISE `read()` raises it, with ERR_LOG it is
   * reported and reading goes on after it, otherwise reading goes on.
   */
  lemma UnknownHeader(c: Config, s: seq<byte>, pos: nat, reps: seq<Report>)
    requires pos + 2 <= |s| && s[pos] == 0x24 && s[pos + 1] != 0x40
    requires s[pos..pos + 2] !in c.nmeaHeaders
    ensures var e := SBFParseError(s[pos..pos + 2]);
      ReadStep(c, s, pos, reps) == Handle(c, e, pos + 2, reps)
      && (c.quitonerror == ERR_RAISE ==> ReadFrom(c, s, pos, reps) == (Err(e), pos + 2, reps))
      && (c.quitonerror == ERR_LOG ==>
            ReadFrom(c, s, pos, reps) == ReadFrom(c, s, pos + 2, reps + [if c.hasHandler then Handled(e) else Logged(e)]))
      && (c.quitonerror != ERR_RAISE && c.quitonerror != ERR_LOG ==> ReadFrom(c, s, pos, reps) == ReadFrom(c, s, pos + 2, reps))
  {
    ReadOne(s, pos);
    ReadOne(s, pos + 1);
    assert [s[pos]] + [s[pos + 1]] == s[pos..pos + 2];
    assert s[pos..pos + 2] != SBF_HDR by {
      assert s[pos..pos + 2][1] == s[pos + 1];
    }
  }

  // ---------------------------------------------------------- framing

  /** The first two passes of the loop over an SBF header read the two sync bytes. */
  lemma SbfHeaderStep(c: Config, s: seq<byte>, pos: nat, reps: seq<Report>)
    requires pos + 2 <= |s| && s[pos..pos + 2] == SBF_HDR
    ensures var f := ParseSbf(c, s, pos + 2, SBF_HDR);
      ReadStep(c, s, pos, reps) ==
        if f.0.Err? then Handle(c, f.0.error, f.1, reps)
        else if Bit(c.protfilter, 1) then Return(Ok(Frame(f.0.value.0, f.0.value.1)), f.1, reps)
        else Continue(f.1, reps)
  {
    assert s[pos] == s[pos..pos + 2][0] && s[pos + 1] == s[pos..pos + 2][1];
    ReadOne(s, pos);
    ReadOne(s, pos + 1);
    assert [s[pos]] + [s[pos + 1]] == SBF_HDR;
  }

  /** The 6 bytes after the sync bytes and the payload length they declare. */
  function DeclaredLength(s: seq<byte>, pos: nat): (l: nat)
    requires pos + 8 <= |s|
    ensures l < 0x10000
  {
    FromLEBound(s[pos + 6..pos + 8]);
    assert Pow256(2) == 0x10000;
    FromLE(s[pos + 6..pos + 8])
  }

  /**
   * Where the frame of an SBF block ends: the length field L counts the 8
   * header bytes, so the block is L bytes long; a field below 8 asks for a
   * negative count, which reads everything left in the stream.
   */
  function FrameEnd(s: seq<byte>, pos: nat): (e: nat)
    requires pos + 8 <= |s|
  {
    var l := DeclaredLength(s, pos);
    if l < 8 then |s| else pos + l
  }

  /** The length fields that are framed: not 8, not past the stream's end, and below 8 only with bytes after the header. */
  predicate Frameable(s: seq<byte>, pos: nat)
    requires pos + 8 <= |s|
  {
    var l := DeclaredLength(s, pos);
    l != 8 && (l > 8 ==> pos + l <= |s|) && (l < 8 ==> pos + 8 < |s|)
  }

  /**
   * An SBF block is framed as the bytes from its sync bytes to FrameEnd;
   * it is returned when the filter passes SBF (parsed when parsing is on)
   * and passed over otherwise.
   */
  lemma SbfFrame(c: Config, s: seq<byte>, pos: nat, reps: seq<Report>)
    requires pos + 8 <= |s| && s[pos..pos + 2] == SBF_HDR && Frameable(s, pos)
    ensures pos + 8 < FrameEnd(s, pos) <= |s|
    ensures var e := FrameEnd(s, pos);
      var raw := s[pos..e];
      ReadStep(c, s, pos, reps) ==
        if !Bit(c.protfilter, 1) then Continue(e, reps)
        else if !c.parsing then Return(Ok(Frame(raw, NotParsed)), e, reps)
        else match Parse(raw, c.validate, c.tables)
          case Ok(m) => Return(Ok(Frame(raw, Sbf(m))), e, reps)
          case Err(e') => Handle(c, e', e, reps)
  {
    SbfHeaderStep(c, s, pos, reps);
    SbfBody(c, s, pos);
  }

  /** _parse_sbf on a block that can be framed. */
  lemma SbfBody(c: Config, s: seq<byte>, pos: nat)
    requires pos + 8 <= |s| && s[pos..pos + 2] == SBF_HDR && Frameable(s, pos)
    ensures var e := FrameEnd(s, pos);
      var raw := s[pos..e];
      ParseSbf(c, s, pos + 2, SBF_HDR) ==
        if Bit(c.protfilter, 1) && c.parsing then
          match Parse(raw, c.validate, c.tables)
          case Ok(m) => (Ok((raw, Sbf(m))), e)
          case Err(err) => (Err(err), e)
        else (Ok((raw, NotParsed)), e)
  {
    SbfFrameReads(s, pos);
  }

  /** The two reads of _parse_sbf on a block that can be framed, and the bytes they reassemble. */
  lemma SbfFrameReads(s: seq<byte>, pos: nat)
    requires pos + 8 <= |s| && s[pos..pos + 2] == SBF_HDR && Frameable(s, pos)
    ensures var byten := s[pos + 2..pos + 8];
      var e := FrameEnd(s, pos);
      && ReadBytes(s, pos + 2, 6) == (Ok(byten), pos + 8)
      && ReadBytes(s, pos + 8, FromLE(byten[4..6]) - 8) == (Ok(s[pos + 8..e]), e)
      && SBF_HDR + byten[0..2] + byten[2..4] + byten[4..6] + s[pos + 8..e] == s[pos..e]
  {
    var byten := s[pos + 2..pos + 8];
    assert ReadBytes(s, pos + 2, 6) == (Ok(byten), pos + 8);
    assert byten[4..6] == s[pos + 6..pos + 8];
    PayloadRead(s, pos);
    Reassembled(s, pos, FrameEnd(s, pos));
  }

  /** The header pieces `_parse_sbf` concatenates, followed by the payload, are the block's own bytes. */
  lemma Reassembled(s: seq<byte>, pos: nat, e: nat)
    requires pos + 8 <= e <= |s| && s[pos..pos + 2] == SBF_HDR
    ensures var byten := s[pos + 2..pos + 8];
      SBF_HDR + byten[0..2] + byten[2..4] + byten[4..6] + s[pos + 8..e] == s[pos..e]
  {
    var byten := s[pos + 2..pos + 8];
    assert |byten| == 6 && byten[0..2] + byten[2..4] + byten[4..6] == byten;
    SplitAt(s, pos, pos + 2, e);
    SplitAt(s, pos + 2, pos + 8, e);
  }

  lemma SplitAt(s: seq<byte>, a: nat, b: nat, c: nat)
    requires a <= b <= c <= |s|
    ensures s[a..c] == s[a..b] + s[b..c]
  {}

  /** The payload read of a block that can be framed reads up to FrameEnd. */
  lemma PayloadRead(s: seq<byte>, pos: nat)
    requires pos + 8 <= |s| && Frameable(s, pos)
    ensures pos + 8 < FrameEnd(s, pos) <= |s|
    ensures ReadBytes(s, pos + 8, DeclaredLength(s, pos) - 8) == (Ok(s[pos + 8..FrameEnd(s, pos)]), FrameEnd(s, pos))
  {}

  /**
   * A length field of exactly 8 (no payload) makes the payload read ask for
   * 0 bytes, which reads as the end of the stream: `read()` returns
   * `(None, None)` even when more data follows.
   */
  lemma EmptyBlockEndsRead(c: Config, s: seq<byte>, pos: nat, reps: seq<Report>)
    requires pos + 8 <= |s| && s[pos..pos + 2] == SBF_HDR
    requires DeclaredLength(s, pos) == 8
    ensures ReadFrom(c, s, pos, reps) == (Ok(Eof), pos + 8, reps)
  {
    SbfHeaderStep(c, s, pos, reps);
    assert ReadBytes(s, pos + 2, 6) == (Ok(s[pos + 2..pos + 8]), pos + 8);
    assert s[pos + 2..pos + 8][4..6] == s[pos + 6..pos + 8];
  }

  /** A block that declares more bytes than the stream still holds is a truncated stream, found at the end of the stream. */
  lemma TruncatedBlock(c: Config, s: seq<byte>, pos: nat, reps: seq<Report>)
    requires pos + 8 < |s| && s[pos..pos + 2] == SBF_HDR
    requires pos + DeclaredLength(s, pos) > |s|
    ensures var l := DeclaredLength(s, pos);
      ReadStep(c, s, pos, reps) == Handle(c, SBFStreamError(BytesTruncated(l - 8, |s| - pos - 8)), |s|, reps)
  {
    SbfTruncated(c, s, pos);
    SbfHeaderStep(c, s, pos, reps);
  }

  /** _parse_sbf on a block longer than the rest of the stream: the payload read fails and consumes the stream. */
  lemma SbfTruncated(c: Config, s: seq<byte>, pos: nat)
    requires pos + 8 < |s|
    requires pos + DeclaredLength(s, pos) > |s|
    ensures var l := DeclaredLength(s, pos);
      ParseSbf(c, s, pos + 2, SBF_HDR) == (Err(SBFStreamError(BytesTruncated(l - 8, |s| - pos - 8))), |s|)
  {
    var l: int := DeclaredLength(s, pos);
    var head := s[pos + 2..pos + 8];
    assert ReadBytes(s, pos + 2, 6) == (Ok(head), pos + 8);
    assert FromLE(head[4..6]) == l by {
      assert head[4..6] == s[pos + 6..pos + 8];
    }
    assert ReadBytes(s, pos + 8, l - 8) == (Err(SBFStreamError(BytesTruncated(l - 8, |s| - pos - 8))), |s|);
  }

  /**
   * A '$' and a second byte that make an NMEA header (and not the SBF one)
   * start a sentence that runs to the next line feed; it is returned when
   * the filter passes NMEA (checked by the NMEA parser when parsing is on)
   * and passed over otherwise.
   */
  lemma NmeaFrame(c: Config, s: seq<byte>, pos: nat, reps: seq<Report>)
    requires pos + 2 <= |s| && s[pos] == 0x24 && s[pos + 1] != 0x40
    requires s[pos..pos + 2] in c.nmeaHeaders
    requires var j := LineEnd(s, pos + 2); j > pos + 2 && s[j - 1] == 0x0A
    ensures var j := LineEnd(s, pos + 2);
      var raw := s[pos..j];
      ReadStep(c, s, pos, reps) ==
        if !Bit(c.protfilter, 0) then Continue(j, reps)
        else if !c.parsing then Return(Ok(Frame(raw, NotParsed)), j, reps)
        else if c.nmeaAccepts(raw) then Return(Ok(Frame(raw, Nmea(raw))), j, reps)
        else Handle(c, NMEAError, j, reps)
  {
    var j := LineEnd(s, pos + 2);
    ReadOne(s, pos);
    ReadOne(s, pos + 1);
    var hdr := s[pos..pos + 2];
    assert [s[pos]] + [s[pos + 1]] == hdr;
    assert hdr != SBF_HDR by {
      assert hdr[1] == s[pos + 1];
    }
    assert ReadLine(s, pos + 2) == (Ok(s[pos + 2..j]), j);
    SplitAt(s, pos, pos + 2, j);
  }

  // ------------------------------------------------------------ parse

  /** With the validate bit clear the checksum is not looked at. */
  lemma ParseIgnoresCrc(message: seq<byte>, validate: int, t: Tables)
    requires !Bit(validate, 0)
    ensures var id := Bytes2Id(Slice(message, 4, 6));
      Parse(message, validate, t) == Construct(ById(id.0), id.1, true, PayloadOnly(From(message, 8)), t)
  {}

  /**
   * A block that `parse` accepts becomes the message named by the masked id
   * of bytes 4-6, with revision 0, bitfields parsed, and bytes 8 onward as
   * its payload.
   */
  lemma ParseAccepted(message: seq<byte>, validate: int, t: Tables)
    requires Parse(message, validate, t).Ok?
    ensures var m := Parse(message, validate, t).value;
      var id := Bytes2Id(Slice(message, 4, 6));
      && m.payload == Some(From(message, 8))
      && m.identity == IdName(t.msgids, id.0 % 0x2000).value
      && m.revno == 0 && m.parsebf
  {
    var id := Bytes2Id(Slice(message, 4, 6));
    var kw := PayloadOnly(From(message, 8));
    NumericIdRevisionZero(id.0, id.1, true, kw, t);
    var name := IdName(t.msgids, id.0 % 0x2000).value;
    MaskedRevisionZero(id.0);
    ConstructById(id.0, id.1, true, kw, t, name, 0);
    PayloadKept(t, name, 0, true, From(message, 8));
  }

  /**
   * With the validate bit set, changing any one byte after the sync bytes
   * of a block whose checksum is right makes `parse` refuse it with an
   * invalid checksum error.
   */
  lemma ParseDetectsByteChange(message: seq<byte>, n: seq<byte>, i: nat, validate: int, t: Tables)
    requires 4 <= |message| && message[2..4] == Crc2Bytes(message[4..])
    requires |n| == |message| && 2 <= i < |n| && n[i] != message[i]
    requires forall k :: 0 <= k < |n| && k != i ==> n[k] == message[k]
    requires Bit(validate, 0)
    ensures Parse(n, validate, t) == Err(SBFMessageError(InvalidCrc(n[2..4], Crc2Bytes(n[4..]))))
  {
    if i < 4 {
      assert n[4..] == message[4..];
      assert n[2..4] != message[2..4] by {
        assert n[2..4][i - 2] == n[i] && message[2..4][i - 2] == message[i];
      }
    } else {
      assert n[2..4] == message[2..4];
      forall j | 0 <= j < |n[4..]| && j != i - 4
        ensures n[4..][j] == message[4..][j]
      {
        assert n[4..][j] == n[j + 4];
      }
      assert n[4..][i - 4] == n[i] && message[4..][i - 4] == message[i];
      CrcDetectsByteChange(message[4..], n[4..], i - 4);
      Crc2BytesInjective(message[4..], n[4..]);
    }
  }

  /**
   * `parse` of a serialized message passes the checksum test whatever the
   * validate setting, and constructs from the id bytes and the message's own
   * payload; with a table of 13-bit keys the id is the one of the message's
   * name.
   */
  lemma SerializedPassesCrc(m: Msg, t: Tables, validate: int)
    requires LenChecksum(t, m.identity, m.payload) == Ok((m.length, m.crc))
    ensures Serialize(m, t).Ok?
    ensures var r := Serialize(m, t).value;
      var id := Bytes2Id(r[4..6]);
      Crc2Bytes(r[4..]) == r[2..4]
      && Parse(r, validate, t) == Construct(ById(id.0), id.1, true, PayloadOnly(m.payload.GetOr([])), t)
  {
    SerializeLayout(m, t);
    var r := Serialize(m, t).value;
    assert Slice(r, 2, 4) == r[2..4] && From(r, 4) == r[4..] && Slice(r, 4, 6) == r[4..6];
    assert From(r, 8) == m.payload.GetOr([]);
  }

  /** With 13-bit table keys, the id `parse` reads from a serialized message is the key of its name. */
  lemma SerializedIdField(m: Msg, t: Tables)
    requires LenChecksum(t, m.identity, m.payload) == Ok((m.length, m.crc))
    requires ValidIds(t.msgids)
    ensures Serialize(m, t).Ok? && FirstWith(t.msgids, m.identity).Some?
    ensures var r := Serialize(m, t).value;
      Bytes2Id(r[4..6]).0 == t.msgids[FirstWith(t.msgids, m.identity).value].0
  {
    SerializeLayout(m, t);
    var r := Serialize(m, t).value;
    MsgIdBytesSpec(t.msgids, m.identity);
    Bytes2IdSplit(r[4..6]);
    var key := t.msgids[FirstWith(t.msgids, m.identity).value].0;
    assert FromLE(r[4..6]) == key;
    ModUnique(key, 0x2000, 0, key);
  }

  /**
   * Round trip through the wire format: a message built by name from
   * keyword values, serialized, is accepted by `parse` (whatever the
   * validate setting) and gives back the same message with revision 0.
   */
  lemma ParseSerialized(name: string, revno: int, validate: int, kw: Kwargs, t: Tables)
    requires ValidIds(t.msgids)
    requires kw.payload.None? && |kw.named| > 0
    requires name in t.blocks && EntriesBack(true, kw, t.blocks[name], [])
    requires Construct(ByName(name), revno, true, kw, t).Ok?
    ensures var m := Construct(ByName(name), revno, true, kw, t).value;
      Serialize(m, t).Ok? && Parse(Serialize(m, t).value, validate, t) == Ok(m.(revno := 0))
  {
    var m := Construct(ByName(name), revno, true, kw, t).value;
    var r := Serialize(m, t).value;
    assert Identify(ByName(name), revno, t) == Ok((name, revno));
    AttributesFields(t, name, revno, true, kw);
    SerializedPassesCrc(m, t, validate);
    SerializedIdField(m, t);
    ConstructBuildParse(name, revno, Bytes2Id(r[4..6]).1, true, kw, t);
  }

  /**
   * A block as `serialize` writes it, read from a stream: its length field
   * holds the payload length alone, while the reader takes the field to
   * count the 8 header bytes too, so the frame it returns is 8 bytes
   * shorter than the block (the end of the payload stays in the stream).
   */
  lemma SerializedBlockMisframed(c: Config, m: Msg, t: Tables, rest: seq<byte>, reps: seq<Report>)
    requires LenChecksum(t, m.identity, m.payload) == Ok((m.length, m.crc))
    requires |m.payload.GetOr([])| > 8
    requires Bit(c.protfilter, 1) && !c.parsing
    ensures Serialize(m, t).Ok?
    ensures var r := Serialize(m, t).value;
      var s := r + rest;
      var l := |m.payload.GetOr([])|;
      ReadStep(c, s, 0, reps) == Return(Ok(Frame(r[..l], NotParsed)), l, reps) && l + 8 == |r|
  {
    SerializeLayout(m, t);
    var r := Serialize(m, t).value;
    var l := |m.payload.GetOr([])|;
    PayloadLengthFrame(r, rest, l);
    SbfFrame(c, r + rest, 0, reps);
  }

  /** A block whose length field holds `l`, the length of its payload alone, is framed as its first `l` bytes. */
  lemma PayloadLengthFrame(r: seq<byte>, rest: seq<byte>, l: nat)
    requires |r| == 8 + l && l > 8 && r[..2] == SBF_HDR && FromLE(r[6..8]) == l
    ensures var s := r + rest;
      && s[0..2] == SBF_HDR && Frameable(s, 0)
      && FrameEnd(s, 0) == l && s[0..l] == r[..l]
  {
    var s := r + rest;
    assert s[0..2] == r[..2] && s[6..8] == r[6..8];
    assert DeclaredLength(s, 0) == l;
    assert s[0..l] == r[..l];
  }
}
