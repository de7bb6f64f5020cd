// sbfmessage.py: the SBFMessage constructor walks a block schema, either
// decoding attribute values out of a given payload (parse mode: the
// `payload` keyword) or encoding keyword values, or nominal values, into a
// new payload (build mode), and then derives the length and checksum.
//
// The first half of this module states that walk as functions on values;
// the class SBFMessage below carries the object's fields and its methods,
// each proved to compute what the matching function says.

module SbfMessage {
  import opened SbfCore
  import opened SbfCrc
  import opened SbfHelpers

  // ------------------------------------------------- attribute naming

  function DigitChar(d: nat): char
    requires d < 10
  {
    ('0' as int + d) as char
  }

  /** `str(n)` for a non-negative integer. */
  function DecimalString(n: nat): (r: string)
    ensures |r| >= 1
    decreases n
  {
    if n < 10 then [DigitChar(n)] else DecimalString(n / 10) + [DigitChar(n % 10)]
  }

  /** `f"{n:02d}"`: at least two digits, zero-filled. */
  function Pad2(n: nat): (r: string)
    ensures |r| >= 2
  {
    if n < 10 then "0" + DecimalString(n) else DecimalString(n)
  }

  /** The suffix one group level adds to an attribute name: `_NN`, none for index 0. */
  function Part(i: nat): string
  {
    if i > 0 then "_" + Pad2(i) else ""
  }

  /** The suffixes of all group levels, outermost first. */
  function Suffix(index: seq<nat>): string
    decreases |index|
  {
    if index == [] then "" else Suffix(index[..|index| - 1]) + Part(index[|index| - 1])
  }

  /** One more level of the name loop appends that level's part. */
  lemma AppendPart(name: string, sfx: string, key: string, i: nat)
    requires key == name + sfx
    ensures i > 0 ==> key + ("_" + Pad2(i)) == name + (sfx + Part(i))
    ensures i == 0 ==> key == name + (sfx + Part(i))
  {
    if i == 0 {
      assert sfx + Part(i) == sfx;
    } else {
      assert name + (sfx + Part(i)) == (name + sfx) + Part(i);
    }
  }

  lemma SuffixStep(index: seq<nat>, k: nat)
    requires k < |index|
    ensures Suffix(index[..k + 1]) == Suffix(index[..k]) + Part(index[k])
  {
    var pre := index[..k + 1];
    assert pre[..|pre| - 1] == index[..k];
  }

  /** The name loop of _set_attribute_single and _set_attribute_bits: one `_NN` per positive index. */
  method IndexedKey(name: string, index: seq<nat>) returns (key: string)
    ensures key == name + Suffix(index)
  {
    key := name;
    var k := 0;
    while k < |index|
      invariant 0 <= k <= |index|
      invariant key == name + Suffix(index[..k])
    {
      SuffixStep(index, k);
      AppendPart(name, Suffix(index[..k]), key, index[k]);
      if index[k] > 0 {
        key := key + ("_" + Pad2(index[k]));
      }
      k := k + 1;
    }
    assert index[..k] == index;
  }

  /** The `_NN` suffixes of the first levels of a count reference, index 0 included. */
  function Nest(index: seq<nat>): string
    decreases |index|
  {
    if index == [] then "" else Nest(index[..|index| - 1]) + "_" + Pad2(index[|index| - 1])
  }

  /** Python's `s.split(c)` for a one-character separator. */
  function Split(s: string, c: char): (r: seq<string>)
    ensures |r| >= 1
    decreases |s|
  {
    if s == [] then [""]
    else
      var rest := Split(s[1..], c);
      if s[0] == c then [""] + rest else [[s[0]] + rest[0]] + rest[1..]
  }

  // ------------------------------------------------------ schema walk

  function Size(e: Entry): nat
  {
    match e
    case Scalar(_, _) => 1
    case Tuple(_, _, body) => 1 + SizeAll(body)
  }

  function SizeAll(es: seq<Entry>): nat
  {
    if es == [] then 0 else Size(es[0]) + SizeAll(es[1..])
  }

  lemma {:induction false} SizeMember(es: seq<Entry>, k: nat)
    requires k < |es|
    ensures Size(es[k]) <= SizeAll(es)
    decreases k
  {
    if k > 0 {
      SizeMember(es[1..], k - 1);
    }
  }

  /** Python's `isinstance(adef, tuple)` entry whose head is a bitfield tag. */
  predicate IsBitfield(e: Entry)
  {
    e.Tuple? && e.head.Ref? && e.head.s in BITFIELD_TAGS
  }

  /** The constructor settings the walk consults. */
  datatype Ctx = Ctx(parsebf: bool, kw: Kwargs)

  /** `"payload" in kwargs`: the walk decodes instead of encoding. */
  predicate Parsing(ctx: Ctx)
  {
    ctx.kw.payload.Some?
  }

  /** What the walk carries from attribute to attribute: the payload, the attributes set so far, the payload offset. */
  datatype Walk = Walk(payload: seq<byte>, attrs: map<string, Value>, offset: nat)

  /** The size of a single attribute: the whole current payload for "CH", otherwise `attsiz`. */
  function TagSize(tag: string, payload: seq<byte>): (r: Result<nat>)
    ensures tag == CH ==> r == Ok(|payload|)
    ensures tag != CH ==> (r.Ok? <==> AttSiz(tag).Ok?)
    ensures tag != CH && r.Ok? ==> r.value == AttSiz(tag).value
    ensures tag != CH && r.Err? ==> r.error == AttSiz(tag).error
  {
    if tag == CH then Ok(|payload|)
    else
      var n :- AttSiz(tag);
      Ok(n)
  }

  /**
   * `setattr` of a single value; a name starting `_HP` instead adds the value
   * to the attribute named by the rest (`getattr` fails when it is missing,
   * `+` fails unless both are integers).
   */
  function Store(attrs: map<string, Value>, key: string, v: Value): (r: Result<map<string, Value>>)
    ensures r.Ok? ==> attrs.Keys <= r.value.Keys
    ensures Slice(key, 0, 3) != "_HP" ==>
      (r.Ok? && key in r.value && r.value[key] == v
       && forall k :: k in attrs && k != key ==> r.value[k] == attrs[k])
    ensures var target := From(key, 3);
      Slice(key, 0, 3) == "_HP" ==>
        (r.Ok? <==> target in attrs && attrs[target].Int? && v.Int?)
        && (r.Ok? ==> r.value.Keys == attrs.Keys && r.value[target] == Int(attrs[target].i + v.i))
  {
    if Slice(key, 0, 3) == "_HP" then
      var target := From(key, 3);
      if target !in attrs then Err(PyAttributeError)
      else if attrs[target].Int? && v.Int? then Ok(attrs[target := Int(attrs[target].i + v.i)])
      else Err(PyTypeError)
    else Ok(attrs[key := v])
  }

  /** _set_attribute_single: one attribute decoded at the offset, or encoded and appended. */
  function Single(ctx: Ctx, name: string, tag: string, index: seq<nat>, w: Walk): (r: Result<Walk>)
    ensures r.Ok? ==> w.offset <= r.value.offset && w.attrs.Keys <= r.value.attrs.Keys
    ensures r.Ok? && Parsing(ctx) ==> r.value.payload == w.payload
    ensures r.Ok? && !Parsing(ctx) ==> w.payload <= r.value.payload
  {
    var key := name + Suffix(index);
    var asiz :- TagSize(tag, w.payload);
    if Parsing(ctx) then SingleParse(key, tag, asiz, w) else SingleBuild(ctx.kw, key, tag, asiz, w)
  }

  /** Parse mode of _set_attribute_single: the value is decoded from `asiz` bytes at the offset. */
  function SingleParse(key: string, tag: string, asiz: nat, w: Walk): (r: Result<Walk>)
    ensures r.Ok? ==> r.value.payload == w.payload && r.value.offset == w.offset + asiz && w.attrs.Keys <= r.value.attrs.Keys
  {
    var v :- BytesToVal(Slice(w.payload, w.offset, w.offset + asiz), tag);
    var attrs :- Store(w.attrs, key, v);
    Ok(Walk(w.payload, attrs, w.offset + asiz))
  }

  /** Build mode of _set_attribute_single: the keyword value (or the nominal one) is encoded and appended. */
  function SingleBuild(kw: Kwargs, key: string, tag: string, asiz: nat, w: Walk): (r: Result<Walk>)
    ensures r.Ok? ==> w.payload <= r.value.payload && r.value.offset == w.offset + asiz && w.attrs.Keys <= r.value.attrs.Keys
    ensures r.Ok? && Slice(key, 0, 3) != "_HP" ==>
      key in r.value.attrs && (key in kw.named ==> r.value.attrs[key] == kw.named[key])
  {
    var nom :- NomVal(tag);
    var v := if key in kw.named then kw.named[key] else nom;
    var b :- ValToBytes(v, tag);
    var attrs :- Store(w.attrs, key, v);
    Ok(Walk(w.payload + b, attrs, w.offset + asiz))
  }

  /** The state of the flag loop of a bitfield: the bitfield value, the bit offset, the attributes. */
  datatype BitState = BitState(bitfield: int, bfoffset: int, attrs: map<string, Value>)

  /** Python's `a | b` on integers of any sign (two's complement, unbounded). */
  function PyOr(a: int, b: int): int
    decreases (if a < 0 then -a else a) + (if b < 0 then -b else b)
  {
    if a == 0 then b
    else if b == 0 then a
    else if a == -1 || b == -1 then -1
    else 2 * PyOr(a / 2, b / 2) + (if a % 2 == 1 || b % 2 == 1 then 1 else 0)
  }

  /**
   * _set_attribute_bits: one flag of `attsiz(keyt)` bits at the bit offset,
   * extracted from the bitfield or or-ed into it. A negative shift count is
   * a ValueError, a non-integer value a TypeError; flags named `reserved...`
   * are not stored.
   */
  function Bits(ctx: Ctx, flag: Entry, index: seq<nat>, s: BitState): (r: Result<BitState>)
    ensures r.Ok? ==> flag.Scalar? && AttSiz(flag.tag).Ok? && r.value.bfoffset == s.bfoffset + AttSiz(flag.tag).value
    ensures r.Ok? ==> s.attrs.Keys <= r.value.attrs.Keys
    ensures r.Ok? && Parsing(ctx) ==> r.value.bitfield == s.bitfield
  {
    var key := flag.name + Suffix(index);
    var atts :- if flag.Tuple? then Err(PyTypeError) else AttSiz(flag.tag);
    var step :- FlagValue(ctx, key, atts, s);
    var attrs := if Slice(flag.name, 0, 8) != "reserved" then s.attrs[key := step.0] else s.attrs;
    Ok(BitState(step.1, s.bfoffset + atts, attrs))
  }

  /** The value of one flag and the bitfield after it: extracted in parse mode, or-ed in from the keyword value in build mode. */
  function FlagValue(ctx: Ctx, key: string, atts: int, s: BitState): (r: Result<(Value, int)>)
    ensures Parsing(ctx) ==> (r.Ok? <==> s.bfoffset >= 0 && atts >= 0)
    ensures Parsing(ctx) && r.Ok? ==> r.value.1 == s.bitfield && r.value.0.Int? && 0 <= r.value.0.i < Pow2(atts)
    ensures !Parsing(ctx) && r.Ok? ==>
      (r.value.0.Int? && s.bfoffset >= 0
       && r.value.0 == (if key in ctx.kw.named then ctx.kw.named[key] else Int(0)))
  {
    if Parsing(ctx) then
      if s.bfoffset < 0 || atts < 0 then Err(PyValueError)
      else Ok((Int((s.bitfield / Pow2(s.bfoffset)) % Pow2(atts)), s.bitfield))
    else
      var v := if key in ctx.kw.named then ctx.kw.named[key] else Int(0);
      if !v.Int? then Err(PyTypeError)
      else if s.bfoffset < 0 then Err(PyValueError)
      else Ok((v, PyOr(s.bitfield, v.i * Pow2(s.bfoffset))))
  }

  /** The flag loop of _set_attribute_bitfield. */
  function FlagsW(ctx: Ctx, flags: seq<Entry>, index: seq<nat>, s: BitState): (r: Result<BitState>)
    decreases |flags|
  {
    if flags == [] then Ok(s)
    else
      var s1 :- Bits(ctx, flags[0], index, s);
      FlagsW(ctx, flags[1..], index, s1)
  }

  lemma BitfieldTagSize(tag: string)
    requires tag in BITFIELD_TAGS
    ensures tag != CH && AttSiz(tag).Ok? && AttSiz(tag).value >= 1
  {
    assert Slice(tag, 1, 4) == tag[1..4];
    DecimalValue3(tag[1..4]);
  }

  /**
   * _set_attribute_bitfield: the bitfield is read little-endian at the offset
   * (or starts at 0), each flag is processed in order, and in build mode the
   * result is appended as `attsiz` unsigned little-endian bytes.
   */
  function Bitfield(ctx: Ctx, tag: string, flags: seq<Entry>, index: seq<nat>, w: Walk): (r: Result<Walk>)
    requires tag in BITFIELD_TAGS
    ensures AttSiz(tag).Ok? && AttSiz(tag).value >= 1
    ensures r.Ok? ==> r.value.offset == w.offset + AttSiz(tag).value
    ensures r.Ok? && Parsing(ctx) ==> r.value.payload == w.payload
    ensures r.Ok? && !Parsing(ctx) ==> |r.value.payload| == |w.payload| + AttSiz(tag).value && w.payload <= r.value.payload
  {
    BitfieldTagSize(tag);
    BitfieldSized(ctx, AttSiz(tag).value, flags, index, w)
  }

  /** _set_attribute_bitfield once the container width `bsiz` is known. */
  function BitfieldSized(ctx: Ctx, bsiz: nat, flags: seq<Entry>, index: seq<nat>, w: Walk): (r: Result<Walk>)
    ensures r.Ok? ==> r.value.offset == w.offset + bsiz
    ensures r.Ok? && Parsing(ctx) ==> r.value.payload == w.payload
    ensures r.Ok? && !Parsing(ctx) ==> |r.value.payload| == |w.payload| + bsiz && w.payload <= r.value.payload
  {
    var bf0 := if Parsing(ctx) then FromLE(Slice(w.payload, w.offset, w.offset + bsiz)) else 0;
    var s :- FlagsW(ctx, flags, index, BitState(bf0, 0, w.attrs));
    if Parsing(ctx) then Ok(Walk(w.payload, s.attrs, w.offset + bsiz))
    else
      var b :- ToBytes(s.bitfield, bsiz, false);
      Ok(Walk(w.payload + b, s.attrs, w.offset + bsiz))
  }

  /**
   * The name a `"name+n"` group count refers to: the name followed by the
   * first `n` group indices; exactly one `+` is allowed.
   */
  function NestName(s: string, index: seq<nat>): (r: Result<string>)
    ensures |Split(s, '+')| != 2 ==> r == Err(PyValueError)
    ensures r.Err? ==> r.error == PyValueError || r.error == PyIndexError
    ensures r.Ok? ==> |Split(s, '+')| == 2 && Split(s, '+')[0] <= r.value
  {
    var parts := Split(s, '+');
    if |parts| != 2 then Err(PyValueError)
    else
      var n :- ParseDecimal(parts[1]);
      if n > |index| then Err(PyIndexError) else Ok(parts[0] + Nest(index[..n]))
  }

  /** The `name+n` branch of _set_attribute_group: split off the level count and append that many indices. */
  method NestedName(s: string, idx: seq<nat>) returns (r: Result<string>)
    ensures r == NestName(s, idx)
  {
    var parts := Split(s, '+');
    if |parts| != 2 {
      r := Err(PyValueError);
      return;
    }
    var level := ParseDecimal(parts[1]);
    if level.Err? {
      r := Err(level.error);
      return;
    }
    r := AppendLevels(parts[0], idx, level.value);
  }

  lemma NestStep(index: seq<nat>, k: nat)
    requires k < |index|
    ensures Nest(index[..k + 1]) == Nest(index[..k]) + "_" + Pad2(index[k])
  {
    var pre := index[..k + 1];
    assert pre[..|pre| - 1] == index[..k];
  }

  /** One more level of the nesting loop appends that level's `_NN`. */
  lemma AppendLevel(base: string, sfx: string, nm: string, i: nat)
    requires nm == base + sfx
    ensures nm + "_" + Pad2(i) == base + (sfx + "_" + Pad2(i))
  {
    assert base + (sfx + "_" + Pad2(i)) == (base + sfx) + "_" + Pad2(i);
  }

  /** One pass of the nesting loop extends the name by the next index. */
  lemma LevelStep(base: string, idx: seq<nat>, i: nat, nm: string)
    requires i < |idx| && nm == base + Nest(idx[..i])
    ensures nm + "_" + Pad2(idx[i]) == base + Nest(idx[..i + 1])
  {
    NestStep(idx, i);
    AppendLevel(base, Nest(idx[..i]), nm, idx[i]);
  }

  /** The `range(int(nestlevel))` loop: one `_NN` per level, an IndexError past the index stack. */
  method AppendLevels(base: string, idx: seq<nat>, n: nat) returns (r: Result<string>)
    ensures r == if n > |idx| then Err(PyIndexError) else Ok(base + Nest(idx[..n]))
  {
    var nm := base;
    var i := 0;
    while i < n
      invariant 0 <= i <= n && i <= |idx|
      invariant nm == base + Nest(idx[..i])
    {
      if i >= |idx| {
        r := Err(PyIndexError);
        return;
      }
      LevelStep(base, idx, i, nm);
      nm := nm + "_" + Pad2(idx[i]);
      i := i + 1;
    }
    r := Ok(nm);
  }

  /** The repeat count of a group: a literal, or the integer attribute the head names. */
  function GroupSize(head: Head, index: seq<nat>, attrs: map<string, Value>): (r: Result<int>)
    ensures head.Ref? && '+' !in head.s ==> (r.Ok? <==> head.s in attrs && attrs[head.s].Int?)
    ensures r.Ok? && head.Ref? ==> exists name :: name in attrs && attrs[name] == Int(r.value)
  {
    match head
    case Count(n) => Ok(n)
    case Ref(s) =>
      var name :- if '+' in s then NestName(s, index) else Ok(s);
      if name !in attrs then Err(PyAttributeError)
      else if attrs[name].Int? then Ok(attrs[name].i)
      else Err(PyTypeError)
  }

  /** _set_attribute: dispatch on the shape of a schema entry. */
  function EntryW(ctx: Ctx, e: Entry, index: seq<nat>, w: Walk): (r: Result<Walk>)
    decreases Size(e), 3, 0
  {
    match e
    case Scalar(name, tag) => Single(ctx, name, tag, index, w)
    case Tuple(name, head, body) =>
      if IsBitfield(e) then
        if ctx.parsebf then Bitfield(ctx, head.s, body, index, w) else Single(ctx, name, head.s, index, w)
      else Group(ctx, head, body, index, w)
  }

  /** The entries of one schema dictionary, in order. */
  function EntriesW(ctx: Ctx, es: seq<Entry>, index: seq<nat>, w: Walk): (r: Result<Walk>)
    decreases SizeAll(es), 4, 0
  {
    if es == [] then Ok(w)
    else
      var w1 :- EntryW(ctx, es[0], index, w);
      EntriesW(ctx, es[1..], index, w1)
  }

  /** _set_attribute_group: a new index level, `gsiz` passes over the body, the level removed again. */
  function Group(ctx: Ctx, head: Head, body: seq<Entry>, index: seq<nat>, w: Walk): (r: Result<Walk>)
    decreases SizeAll(body) + 1, 2, 0
  {
    var gsiz :- GroupSize(head, index + [0], w.attrs);
    Iterate(ctx, body, index, 0, gsiz, w)
  }

  /** Passes `i + 1`, ..., `n` over a group body, the innermost index set to the pass number. */
  function Iterate(ctx: Ctx, body: seq<Entry>, index: seq<nat>, i: nat, n: int, w: Walk): (r: Result<Walk>)
    decreases SizeAll(body) + 1, 1, if n > i then n - i else 0
  {
    if i >= n then Ok(w)
    else
      var w1 :- EntriesW(ctx, body, index + [i + 1], w);
      Iterate(ctx, body, index, i + 1, n, w1)
  }

  /**
   * The top-level loop of _do_attributes over the block schema. Besides the
   * outcome it yields the loop variable `anam` as the exception handler
   * finds it: None while the loop has not started.
   */
  function TopW(ctx: Ctx, es: seq<Entry>, w: Walk, anam: Option<string>): (r: (Result<Walk>, Option<string>))
    ensures es != [] ==> r.1.Some?
    ensures es == [] ==> r == (Ok(w), anam)
    decreases |es|
  {
    if es == [] then (Ok(w), anam)
    else match EntryW(ctx, es[0], [], w)
      case Err(e) => (Err(e), Some(es[0].name))
      case Ok(w1) => TopW(ctx, es[1..], w1, Some(es[0].name))
  }

  /** The exception handler of _do_attributes. */
  function Convert(e: Error, anam: Option<string>, identity: string): (r: Error)
    ensures e == PyAttributeError || e == PyTypeError || e == PyValueError || e == PyOverflowError ==>
      (anam.None? <==> r == PyUnboundLocalError)
      && (anam.Some? ==> r.SBFTypeError? && (r.reason.IncorrectType? || r.reason.OverflowFor?)
                         && r.reason.attribute == anam.value && r.reason.identity == identity
                         && (r.reason.OverflowFor? <==> e == PyOverflowError))
    ensures !(e == PyAttributeError || e == PyTypeError || e == PyValueError || e == PyOverflowError) ==> r == e
  {
    match e
    case PyAttributeError | PyTypeError | PyValueError =>
      if anam.None? then PyUnboundLocalError else SBFTypeError(IncorrectType(anam.value, identity))
    case PyOverflowError =>
      if anam.None? then PyUnboundLocalError else SBFTypeError(OverflowFor(anam.value, identity))
    case _ => e
  }

  /**
   * _get_dict as written: an unknown name reaches the SBFMessageError only
   * when its message can be formatted, that is only for the empty name.
   */
  function GetDictAsWritten(t: Tables, identity: string): (r: Result<seq<Entry>>)
    ensures identity in t.blocks ==> r == Ok(t.blocks[identity])
    ensures identity !in t.blocks && identity != "" ==> r == Err(PyValueError)
    ensures identity == "" && identity !in t.blocks ==> r == Err(SBFMessageError(UnknownMessageType(identity)))
  {
    if identity in t.blocks then Ok(t.blocks[identity])
    else
      var shown :- EscapeAll(identity);
      Err(SBFMessageError(UnknownMessageType(identity)))
  }

  /** _get_dict as intended: the schema of a known block, an SBFMessageError for any unknown name. */
  function GetDict(t: Tables, identity: string): (r: Result<seq<Entry>>)
    ensures r.Ok? <==> identity in t.blocks
    ensures r.Ok? ==> r.value == t.blocks[identity]
    ensures r.Err? ==> r.error == SBFMessageError(UnknownMessageType(identity))
  {
    if identity in t.blocks then Ok(t.blocks[identity]) else Err(SBFMessageError(UnknownMessageType(identity)))
  }

  /** _do_len_checksum: the 2-byte payload length, then the checksum of id, length and payload. */
  function LenChecksum(t: Tables, identity: string, payload: Option<seq<byte>>): (r: Result<(seq<byte>, seq<byte>)>)
    ensures r.Ok? ==> MsgIdBytes(t.msgids, identity).Ok? && |r.value.1| == 2
  {
    var msgidb :- MsgIdBytes(t.msgids, identity);
    var p := payload.GetOr([]);
    var length :- ValToBytes(Int(|p|), U2);
    Ok((length, Crc2Bytes(msgidb + length + p)))
  }

  /** The observable state of a constructed message. */
  datatype Msg = Msg(
    identity: string,
    revno: int,
    parsebf: bool,
    nyi: bool,
    payload: Option<seq<byte>>,
    length: seq<byte>,
    crc: seq<byte>,
    attrs: map<string, Value>)

  /** _do_attributes before its exception handler, with the `anam` the handler sees. */
  function AttributesRaw(t: Tables, identity: string, revno: int, parsebf: bool, kw: Kwargs): (r: (Result<Msg>, Option<string>))
  {
    if NoKwargs(kw) then
      match LenChecksum(t, identity, None)
      case Err(e) => (Err(e), None)
      case Ok(lc) => (Ok(Msg(identity, revno, parsebf, true, None, lc.0, lc.1, map[])), None)
    else
      var p := kw.payload.GetOr([]);
      match GetDict(t, identity)
      case Err(e) => (Err(e), None)
      case Ok(pdict) =>
        var top := TopW(Ctx(parsebf, kw), pdict, Walk(p, map[], 0), None);
        match top.0
        case Err(e) => (Err(e), top.1)
        case Ok(w) =>
          match LenChecksum(t, identity, Some(w.payload))
          case Err(e) => (Err(e), top.1)
          case Ok(lc) => (Ok(Msg(identity, revno, parsebf, |pdict| == 0, Some(w.payload), lc.0, lc.1, w.attrs)), top.1)
  }

  /** _do_attributes: the walk, the length and checksum, and the exception conversion. */
  function Attributes(t: Tables, identity: string, revno: int, parsebf: bool, kw: Kwargs): (r: Result<Msg>)
  {
    var raw := AttributesRaw(t, identity, revno, parsebf, kw);
    match raw.0
    case Err(e) => Err(Convert(e, raw.1, identity))
    case Ok(m) => Ok(m)
  }

  /** The three forms of the constructor's `msgid` argument. */
  datatype MsgIdArg = ById(id: int) | ByBytes(b: seq<byte>) | ByName(name: string)

  /** `SBF_MSGIDS[key][0]`: the name registered for an id. */
  function IdName(t: seq<(int, string)>, key: int): (r: Option<string>)
    ensures r.Some? <==> exists j :: 0 <= j < |t| && t[j].0 == key
    decreases |t|
  {
    if t == [] then None
    else if t[0].0 == key then Some(t[0].1)
    else IdName(t[1..], key)
  }

  /**
   * Lines 80-91 of the constructor: bytes are read as an unsigned integer;
   * an integer keeps its low 13 bits and is looked up. The revision is
   * taken from the already-masked id.
   */
  function Identify(arg: MsgIdArg, revno: int, t: Tables): (r: Result<(string, int)>)
    ensures arg.ByName? ==> r == Ok((arg.name, revno))
    ensures arg.ById? ==> (r.Ok? <==> IdName(t.msgids, arg.id % 0x2000).Some?)
    ensures arg.ByBytes? ==> (r.Ok? <==> IdName(t.msgids, FromLE(arg.b) % 0x2000).Some?)
    ensures arg.ById? && r.Ok? ==> r.value.0 == IdName(t.msgids, arg.id % 0x2000).value
  {
    match arg
    case ByName(name) => Ok((name, revno))
    case ById(id) => Lookup(id, t)
    case ByBytes(b) => Lookup(FromLE(b), t)
  }

  /** `msgid & 0x1FFF`, the revision `(msgid & 0xE000) >> 13` of that, and the table lookup. */
  function Lookup(id: int, t: Tables): (r: Result<(string, int)>)
    ensures r.Ok? <==> IdName(t.msgids, id % 0x2000).Some?
    ensures r.Ok? ==> r.value == (IdName(t.msgids, id % 0x2000).value, RevBits(id % 0x2000))
    ensures r.Err? ==> r.error == SBFMessageError(UnknownMessageId(id % 0x2000))
  {
    var masked := id % 0x2000;
    match IdName(t.msgids, masked)
    case None => Err(SBFMessageError(UnknownMessageId(masked)))
    case Some(name) => Ok((name, RevBits(masked)))
  }

  /** The keyword arguments of `SBFMessage(msgid, revid, payload=p)`. */
  function PayloadOnly(p: seq<byte>): Kwargs
  {
    KwargsRaw(Some(p), map[])
  }

  /** `SBFMessage(msgid, revno, parsebitfield, **kwargs)`. */
  function Construct(arg: MsgIdArg, revno: int, parsebf: bool, kw: Kwargs, t: Tables): (r: Result<Msg>)
    ensures r.Ok? ==> Identify(arg, revno, t).Ok? && r.value.identity == Identify(arg, revno, t).value.0
    ensures r.Ok? ==> r.value.parsebf == parsebf
  {
    var id :- Identify(arg, revno, t);
    Attributes(t, id.0, id.1, parsebf, kw)
  }

  /** serialize: header, checksum, id, length, payload. */
  function Serialize(m: Msg, t: Tables): (r: Result<seq<byte>>)
    ensures r.Ok? <==> MsgIdBytes(t.msgids, m.identity).Ok?
    ensures r.Ok? ==> |r.value| == 4 + |m.crc| + |m.length| + |m.payload.GetOr([])| && r.value[..2] == SBF_HDR
  {
    var msgidb :- MsgIdBytes(t.msgids, m.identity);
    Ok(SBF_HDR + m.crc + msgidb + m.length + m.payload.GetOr([]))
  }

  // ------------------------------------------------------- the class

  /** An SBF message object: its private fields and its public attributes. */
  class SBFMessage {
    var immutable: bool
    var payload: Option<seq<byte>>
    var length: seq<byte>
    var crc: seq<byte>
    var parsebf: bool
    var nyi: bool
    var msgid: string
    var revno: int
    /** The public attributes the walk sets, by name. */
    var attrs: map<string, Value>
    /** SBF_MSGIDS and SBF_BLOCKS. */
    const tables: Tables

    function State(): Msg
      reads this
    {
      Msg(msgid, revno, parsebf, nyi, payload, length, crc, attrs)
    }

    /** The fields the attribute walk leaves alone. */
    function Fixed(): (bool, bool, string, int, bool, seq<byte>, seq<byte>)
      reads this
    {
      (immutable, parsebf, msgid, revno, nyi, length, crc)
    }

    /** `r` and the payload and attributes are the outcome `spec` describes. */
    predicate Follows(r: Result<nat>, spec: Result<Walk>)
      reads this
    {
      (r.Ok? <==> spec.Ok?)
      && (r.Err? ==> r.error == spec.error)
      && (r.Ok? ==> r.value == spec.value.offset && payload == Some(spec.value.payload) && attrs == spec.value.attrs)
    }

    /** ... for the methods that also hand the index stack back. */
    predicate FollowsWith(r: Result<(nat, seq<nat>)>, index: seq<nat>, spec: Result<Walk>)
      reads this
    {
      (r.Ok? <==> spec.Ok?)
      && (r.Err? ==> r.error == spec.error)
      && (r.Ok? ==> r.value == (spec.value.offset, index) && payload == Some(spec.value.payload) && attrs == spec.value.attrs)
    }

    /** Lines 72-78 of the constructor: the object before its id and payload are set. */
    constructor (parsebitfield: bool, t: Tables)
      ensures !immutable && payload.None? && length == [] && crc == []
      ensures parsebf == parsebitfield && !nyi && attrs == map[] && tables == t
    {
      immutable := false;
      payload := None;
      length := [];
      crc := [];
      parsebf := parsebitfield;
      nyi := false;
      msgid := "";
      revno := 0;
      attrs := map[];
      tables := t;
    }

    /** `SBFMessage(...)`: a new object, initialised, or the exception the constructor raises. */
    static method Create(arg: MsgIdArg, revno: int, parsebitfield: bool, kw: Kwargs, t: Tables) returns (r: Result<SBFMessage>)
      ensures r.Ok? <==> Construct(arg, revno, parsebitfield, kw, t).Ok?
      ensures r.Err? ==> r.error == Construct(arg, revno, parsebitfield, kw, t).error
      ensures r.Ok? ==> fresh(r.value) && r.value.immutable && r.value.tables == t
      ensures r.Ok? ==> r.value.State() == Construct(arg, revno, parsebitfield, kw, t).value
    {
      var m := new SBFMessage(parsebitfield, t);
      var init := m.Init(arg, revno, kw);
      if init.Err? {
        r := Err(init.error);
        return;
      }
      r := Ok(m);
    }

    /** Lines 80-95 of the constructor: resolve the id, set the attributes, freeze. */
    method Init(arg: MsgIdArg, revno0: int, kw: Kwargs) returns (r: Result<()>)
      requires !immutable && payload.None? && !nyi && attrs == map[]
      modifies this
      ensures r.Ok? <==> Construct(arg, revno0, old(parsebf), kw, tables).Ok?
      ensures r.Err? ==> r.error == Construct(arg, revno0, old(parsebf), kw, tables).error
      ensures r.Ok? ==> immutable && State() == Construct(arg, revno0, old(parsebf), kw, tables).value
    {
      match arg {
        case ByName(name) =>
          msgid := name;
          revno := revno0;
        case ById(id) =>
          var found := ResolveId(id);
          if found.Err? {
            r := Err(found.error);
            return;
          }
          msgid, revno := found.value.0, found.value.1;
        case ByBytes(b) =>
          var found := ResolveId(FromLE(b));
          if found.Err? {
            r := Err(found.error);
            return;
          }
          msgid, revno := found.value.0, found.value.1;
      }
      r := DoAttributes(kw);
      if r.Ok? {
        immutable := true;
      }
    }

    /** Lines 83-89 of the constructor: mask the id, take the revision, look the name up. */
    method ResolveId(id: int) returns (r: Result<(string, int)>)
      ensures r == Lookup(id, tables)
    {
      var masked := id % 0x2000;
      var rev := RevBits(masked);
      var name := IdName(tables.msgids, masked);
      if name.None? {
        r := Err(SBFMessageError(UnknownMessageId(masked)));
        return;
      }
      r := Ok((name.value, rev));
    }

    /** The top-level loop of _do_attributes: every entry in turn from offset 0, `anam` naming the last one begun. */
    method WalkTop(pdict: seq<Entry>, kw: Kwargs) returns (r: Result<nat>, anam: Option<string>)
      requires payload.Some?
      modifies this
      ensures Fixed() == old(Fixed())
      ensures var spec := TopW(Ctx(parsebf, kw), pdict, old(Walk(payload.value, attrs, 0)), None);
        anam == spec.1 && (r.Ok? <==> spec.0.Ok?) && (r.Err? ==> r.error == spec.0.error)
        && (r.Ok? ==> r.value == spec.0.value.offset && payload == Some(spec.0.value.payload) && attrs == spec.0.value.attrs)
    {
      ghost var ctx := Ctx(parsebf, kw);
      ghost var start := Walk(payload.value, attrs, 0);
      anam := None;
      var offset: nat := 0;
      var index: seq<nat> := [];
      var k := 0;
      while k < |pdict|
        invariant 0 <= k <= |pdict|
        invariant payload.Some? && index == [] && Fixed() == old(Fixed())
        invariant k > 0 ==> anam == Some(pdict[k - 1].name)
        invariant k == 0 ==> anam.None?
        invariant TopW(ctx, pdict[k..], Walk(payload.value, attrs, offset), anam) == TopW(ctx, pdict, start, None)
      {
        assert pdict[k..][0] == pdict[k] && pdict[k..][1..] == pdict[k + 1..];
        anam := Some(pdict[k].name);
        var res := SetAttribute(pdict[k], offset, index, kw);
        if res.Err? {
          r := Err(res.error);
          return;
        }
        offset, index := res.value.0, res.value.1;
        k := k + 1;
      }
      assert pdict[k..] == [];
      r := Ok(offset);
    }

    /** _do_attributes: the method form of the function of the same name. */
    method DoAttributes(kw: Kwargs) returns (r: Result<()>)
      requires !immutable && payload.None? && !nyi && attrs == map[]
      modifies this
      ensures r.Ok? <==> Attributes(tables, old(msgid), old(revno), old(parsebf), kw).Ok?
      ensures r.Err? ==> r.error == Attributes(tables, old(msgid), old(revno), old(parsebf), kw).error
      ensures r.Ok? ==> !immutable && State() == Attributes(tables, old(msgid), old(revno), old(parsebf), kw).value
    {
      ghost var raw := AttributesRaw(tables, msgid, revno, parsebf, kw);
      var anam: Option<string> := None;
      if NoKwargs(kw) {
        payload := None;
        nyi := true;
      } else {
        payload := Some(kw.payload.GetOr([]));
        var pd := GetDict(tables, msgid);
        if pd.Err? {
          assert raw == (Err(pd.error), None);
          r := Err(Convert(pd.error, anam, msgid));
          return;
        }
        var pdict := pd.value;
        if |pdict| == 0 {
          nyi := true;
        }
        var top, last := WalkTop(pdict, kw);
        anam := last;
        if top.Err? {
          assert raw == (Err(top.error), anam);
          r := Err(Convert(top.error, anam, msgid));
          return;
        }
      }
      var lc := DoLenChecksum();
      if lc.Err? {
        assert raw == (Err(lc.error), anam);
        r := Err(Convert(lc.error, anam, msgid));
        return;
      }
      assert raw == (Ok(State()), anam);
      r := Ok(());
    }

    /** _set_attribute: dispatch on the entry's shape. */
    method SetAttribute(e: Entry, offset: nat, index: seq<nat>, kw: Kwargs) returns (r: Result<(nat, seq<nat>)>)
      requires payload.Some?
      modifies this
      decreases Size(e), 1
      ensures Fixed() == old(Fixed())
      ensures FollowsWith(r, index, EntryW(Ctx(parsebf, kw), e, index, old(Walk(payload.value, attrs, offset))))
    {
      match e {
        case Scalar(name, tag) =>
          var o := SetAttributeSingle(name, tag, offset, index, kw);
          r := if o.Ok? then Ok((o.value, index)) else Err(o.error);
        case Tuple(name, head, body) =>
          if IsBitfield(e) {
            if parsebf {
              r := SetAttributeBitfield(head.s, body, offset, index, kw);
            } else {
              var o := SetAttributeSingle(name, head.s, offset, index, kw);
              r := if o.Ok? then Ok((o.value, index)) else Err(o.error);
            }
          } else {
            r := SetAttributeGroup(head, body, offset, index, kw);
          }
      }
    }

    /** _set_attribute_group. */
    method SetAttributeGroup(head: Head, body: seq<Entry>, offset: nat, index: seq<nat>, kw: Kwargs) returns (r: Result<(nat, seq<nat>)>)
      requires payload.Some?
      modifies this
      decreases SizeAll(body) + 1, 0
      ensures Fixed() == old(Fixed())
      ensures FollowsWith(r, index, Group(Ctx(parsebf, kw), head, body, index, old(Walk(payload.value, attrs, offset))))
    {
      var ctx := Ctx(parsebf, kw);
      var idx := index + [0];
      var gsiz :- GroupCount(head, idx);
      ghost var w0 := Walk(payload.value, attrs, offset);
      var off := offset;
      var i: nat := 0;
      while i < gsiz
        invariant payload.Some? && Fixed() == old(Fixed())
        invariant |idx| == |index| + 1 && idx[..|index|] == index
        invariant Iterate(ctx, body, index, i, gsiz, Walk(payload.value, attrs, off)) == Iterate(ctx, body, index, 0, gsiz, w0)
        decreases gsiz - i
      {
        idx := idx[..|idx| - 1] + [i + 1];
        assert idx == index + [i + 1];
        ghost var wi := Walk(payload.value, attrs, off);
        var k := 0;
        while k < |body|
          invariant 0 <= k <= |body|
          invariant payload.Some? && Fixed() == old(Fixed())
          invariant idx == index + [i + 1]
          invariant EntriesW(ctx, body[k..], idx, Walk(payload.value, attrs, off)) == EntriesW(ctx, body, idx, wi)
        {
          assert body[k..][0] == body[k] && body[k..][1..] == body[k + 1..];
          SizeMember(body, k);
          var res := SetAttribute(body[k], off, idx, kw);
          if res.Err? {
            r := Err(res.error);
            return;
          }
          off, idx := res.value.0, res.value.1;
          k := k + 1;
        }
        i := i + 1;
      }
      idx := idx[..|idx| - 1];
      r := Ok((off, idx));
    }

    /** Lines 199-208 of _set_attribute_group: the repeat count. */
    method GroupCount(head: Head, idx: seq<nat>) returns (r: Result<int>)
      ensures r == GroupSize(head, idx, attrs)
    {
      match head {
        case Count(n) =>
          r := Ok(n);
        case Ref(s) =>
          var nm := s;
          if '+' in s {
            var nested := NestedName(s, idx);
            if nested.Err? {
              r := Err(nested.error);
              return;
            }
            nm := nested.value;
          }
          if nm !in attrs {
            r := Err(PyAttributeError);
            return;
          }
          if !attrs[nm].Int? {
            r := Err(PyTypeError);
            return;
          }
          r := Ok(attrs[nm].i);
      }
    }

    /** _set_attribute_single. */
    method SetAttributeSingle(name: string, tag: string, offset: nat, index: seq<nat>, kw: Kwargs) returns (r: Result<nat>)
      requires payload.Some?
      modifies this
      ensures Fixed() == old(Fixed())
      ensures Follows(r, Single(Ctx(parsebf, kw), name, tag, index, old(Walk(payload.value, attrs, offset))))
    {
      var key := IndexedKey(name, index);
      var asiz :- TagSize(tag, payload.value);
      if kw.payload.Some? {
        r := DecodeSingle(key, tag, asiz, offset);
      } else {
        r := EncodeSingle(key, tag, asiz, offset, kw);
      }
    }

    /** The parse branch of _set_attribute_single. */
    method DecodeSingle(key: string, tag: string, asiz: nat, offset: nat) returns (r: Result<nat>)
      requires payload.Some?
      modifies this
      ensures Fixed() == old(Fixed())
      ensures Follows(r, SingleParse(key, tag, asiz, old(Walk(payload.value, attrs, offset))))
    {
      var v :- BytesToVal(Slice(payload.value, offset, offset + asiz), tag);
      var stored :- Store(attrs, key, v);
      attrs := stored;
      r := Ok(offset + asiz);
    }

    /** The build branch of _set_attribute_single. */
    method EncodeSingle(key: string, tag: string, asiz: nat, offset: nat, kw: Kwargs) returns (r: Result<nat>)
      requires payload.Some?
      modifies this
      ensures Fixed() == old(Fixed())
      ensures Follows(r, SingleBuild(kw, key, tag, asiz, old(Walk(payload.value, attrs, offset))))
    {
      var nom :- NomVal(tag);
      var v := if key in kw.named then kw.named[key] else nom;
      var b :- ValToBytes(v, tag);
      payload := Some(payload.value + b);
      var stored :- Store(attrs, key, v);
      attrs := stored;
      r := Ok(offset + asiz);
    }

    /** _set_attribute_bitfield. */
    method SetAttributeBitfield(tag: string, flags: seq<Entry>, offset: nat, index: seq<nat>, kw: Kwargs) returns (r: Result<(nat, seq<nat>)>)
      requires payload.Some? && tag in BITFIELD_TAGS
      modifies this
      ensures Fixed() == old(Fixed())
      ensures FollowsWith(r, index, Bitfield(Ctx(parsebf, kw), tag, flags, index, old(Walk(payload.value, attrs, offset))))
    {
      BitfieldTagSize(tag);
      r := SetBitfieldSized(AttSiz(tag).value, flags, offset, index, kw);
    }

    /** _set_attribute_bitfield once `attsiz(keyt)` is known: the flag loop, then the container append. */
    method SetBitfieldSized(bsiz: nat, flags: seq<Entry>, offset: nat, index: seq<nat>, kw: Kwargs) returns (r: Result<(nat, seq<nat>)>)
      requires payload.Some?
      modifies this
      ensures Fixed() == old(Fixed())
      ensures var spec := BitfieldSized(Ctx(parsebf, kw), bsiz, flags, index, old(Walk(payload.value, attrs, offset)));
        (r.Ok? <==> spec.Ok?) && (r.Err? ==> r.error == spec.error)
        && (r.Ok? ==> r.value == (spec.value.offset, index) && payload == Some(spec.value.payload) && attrs == spec.value.attrs)
    {
      var ctx := Ctx(parsebf, kw);
      var bitfield := if kw.payload.Some? then FromLE(Slice(payload.value, offset, offset + bsiz)) else 0;
      ghost var w0 := Walk(payload.value, attrs, offset);
      var fs := SetFlags(bitfield, flags, index, kw);
      if fs.Err? {
        assert BitfieldSized(ctx, bsiz, flags, index, w0) == Err(fs.error);
        r := Err(fs.error);
        return;
      }
      bitfield := fs.value.0;
      if kw.payload.None? {
        var b := ToBytes(bitfield, bsiz, false);
        if b.Err? {
          assert BitfieldSized(ctx, bsiz, flags, index, w0) == Err(b.error);
          r := Err(b.error);
          return;
        }
        assert BitfieldSized(ctx, bsiz, flags, index, w0) == Ok(Walk(w0.payload + b.value, attrs, offset + bsiz));
        payload := Some(payload.value + b.value);
      } else {
        assert BitfieldSized(ctx, bsiz, flags, index, w0) == Ok(Walk(w0.payload, attrs, offset + bsiz));
      }
      r := Ok((offset + bsiz, index));
    }

    /** The flag loop of _set_attribute_bitfield, from bit offset 0: returns the final bitfield and bit offset. */
    method SetFlags(bitfield: int, flags: seq<Entry>, index: seq<nat>, kw: Kwargs) returns (r: Result<(int, int)>)
      modifies this
      ensures payload == old(payload) && Fixed() == old(Fixed())
      ensures var spec := FlagsW(Ctx(parsebf, kw), flags, index, BitState(bitfield, 0, old(attrs)));
        (r.Ok? <==> spec.Ok?) && (r.Err? ==> r.error == spec.error)
        && (r.Ok? ==> r.value == (spec.value.bitfield, spec.value.bfoffset) && attrs == spec.value.attrs)
    {
      ghost var ctx := Ctx(parsebf, kw);
      var bf := bitfield;
      var bfoffset := 0;
      ghost var s0 := BitState(bitfield, 0, attrs);
      var k := 0;
      while k < |flags|
        invariant 0 <= k <= |flags|
        invariant payload == old(payload) && Fixed() == old(Fixed())
        invariant FlagsW(ctx, flags[k..], index, BitState(bf, bfoffset, attrs)) == FlagsW(ctx, flags, index, s0)
      {
        assert flags[k..][0] == flags[k] && flags[k..][1..] == flags[k + 1..];
        var res := SetAttributeBits(bf, bfoffset, flags[k], index, kw);
        if res.Err? {
          r := Err(res.error);
          return;
        }
        bf, bfoffset := res.value.0, res.value.1;
        k := k + 1;
      }
      assert flags[k..] == [];
      r := Ok((bf, bfoffset));
    }

    /** _set_attribute_bits: one flag; returns the new bitfield and bit offset. */
    method SetAttributeBits(bitfield: int, bfoffset: int, flag: Entry, index: seq<nat>, kw: Kwargs) returns (r: Result<(int, int)>)
      modifies this
      ensures payload == old(payload) && Fixed() == old(Fixed())
      ensures var spec := Bits(Ctx(parsebf, kw), flag, index, BitState(bitfield, bfoffset, old(attrs)));
        (r.Ok? <==> spec.Ok?) && (r.Err? ==> r.error == spec.error)
        && (r.Ok? ==> r.value == (spec.value.bitfield, spec.value.bfoffset) && attrs == spec.value.attrs)
    {
      var key := IndexedKey(flag.name, index);
      if flag.Tuple? {
        r := Err(PyTypeError);
        return;
      }
      var atts :- AttSiz(flag.tag);
      var val: Value;
      var bf := bitfield;
      if kw.payload.Some? {
        if bfoffset < 0 || atts < 0 {
          r := Err(PyValueError);
          return;
        }
        val := Int((bitfield / Pow2(bfoffset)) % Pow2(atts));
      } else {
        val := if key in kw.named then kw.named[key] else Int(0);
        if !val.Int? {
          r := Err(PyTypeError);
          return;
        }
        if bfoffset < 0 {
          r := Err(PyValueError);
          return;
        }
        bf := PyOr(bitfield, val.i * Pow2(bfoffset));
      }
      assert FlagValue(Ctx(parsebf, kw), key, atts, BitState(bitfield, bfoffset, attrs)) == Ok((val, bf));
      if Slice(flag.name, 0, 8) != "reserved" {
        attrs := attrs[key := val];
      }
      r := Ok((bf, bfoffset + atts));
    }

    /** _do_len_checksum. */
    method DoLenChecksum() returns (r: Result<()>)
      modifies this
      ensures immutable == old(immutable) && payload == old(payload) && msgid == old(msgid)
      ensures revno == old(revno) && parsebf == old(parsebf) && nyi == old(nyi) && attrs == old(attrs)
      ensures var spec := LenChecksum(tables, msgid, payload);
        (r.Ok? <==> spec.Ok?) && (r.Err? ==> r.error == spec.error)
        && (r.Ok? ==> (length, crc) == spec.value)
    {
      ghost var spec := LenChecksum(tables, msgid, payload);
      var msgidb := MsgIdToBytes(tables.msgids, msgid);
      if msgidb.Err? {
        r := Err(msgidb.error);
        return;
      }
      var p := payload.GetOr([]);
      var len := ValToBytes(Int(|p|), U2);
      if len.Err? {
        assert spec == Err(len.error);
        r := Err(len.error);
        return;
      }
      var c := CrcToBytes(msgidb.value + len.value + p);
      assert spec == Ok((len.value, c));
      length := len.value;
      crc := c;
      r := Ok(());
    }

    /** __setattr__: every update after construction is refused. */
    method SetAttr(name: string, v: Value) returns (r: Result<()>)
      modifies this
      ensures old(immutable) ==> r == Err(SBFMessageError(Immutable(name))) && attrs == old(attrs)
      ensures !old(immutable) ==> r == Ok(()) && attrs == old(attrs)[name := v]
      ensures Fixed() == old(Fixed()) && payload == old(payload)
    {
      if immutable {
        r := Err(SBFMessageError(Immutable(name)));
        return;
      }
      attrs := attrs[name := v];
      r := Ok(());
    }

    /** The `identity` property. */
    function Identity(): (r: string)
      reads this
      ensures r == State().identity
    {
      msgid
    }

    /** serialize on the object. */
    function SerializeObj(): (r: Result<seq<byte>>)
      reads this
      ensures r == Serialize(State(), tables)
    {
      var msgidb :- MsgIdBytes(tables.msgids, msgid);
      Ok(SBF_HDR + crc + msgidb + length + (if payload.None? then [] else payload.value))
    }
  }
}
