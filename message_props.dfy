// Properties of the SBFMessage schema walk: how attribute names are formed,
// what each mode does to the payload and the attribute store, and that a
// payload built from keyword values parses back into the same attributes.

module SbfMessageProps {
  import opened SbfCore
  import opened SbfHelpers
  import opened SbfMessage

  // ------------------------------------------------- attribute naming

  /** `str(n)` is a string of digits that `int()` reads back as `n`. */
  lemma {:induction false} DecimalStringValue(n: nat)
    ensures forall i :: 0 <= i < |DecimalString(n)| ==> IsDigit(DecimalString(n)[i])
    ensures DecimalValue(DecimalString(n)) == n
    decreases n
  {
    var s := DecimalString(n);
    if n >= 10 {
      DecimalStringValue(n / 10);
      assert s[..|s| - 1] == DecimalString(n / 10);
    } else {
      assert s[..|s| - 1] == [];
    }
  }

  lemma DecimalStringParses(n: nat)
    ensures ParseDecimal(DecimalString(n)) == Ok(n)
  {
    DecimalStringValue(n);
  }

  /** `f"{n:02d}"` reads back as `n`. */
  lemma Pad2Parses(n: nat)
    ensures ParseDecimal(Pad2(n)) == Ok(n)
  {
    DecimalStringValue(n);
    var s := Pad2(n);
    if n < 10 {
      assert s == ['0', DigitChar(n)];
      assert s[..1] == ['0'];
      assert s[..1][..0] == [];
      assert DecimalValue(s[..1]) == 0;
      assert forall i :: 0 <= i < |s| ==> IsDigit(s[i]);
      assert DecimalValue(s) == n;
    }
  }

  /** Different group passes give different name suffixes. */
  lemma PartInjective(i: nat, j: nat)
    requires i != j
    ensures Part(i) != Part(j)
  {
    if i > 0 && j > 0 {
      Pad2Parses(i);
      Pad2Parses(j);
      assert Part(i)[1..] == Pad2(i) && Part(j)[1..] == Pad2(j);
    }
  }

  lemma SuffixSnoc(index: seq<nat>, i: nat)
    ensures Suffix(index + [i]) == Suffix(index) + Part(i)
  {
    assert (index + [i])[..|index|] == index;
  }

  /** Within one group the attribute of pass `i` and that of pass `j` have different names. */
  lemma PassKeysDistinct(name: string, index: seq<nat>, i: nat, j: nat)
    requires i != j
    ensures name + Suffix(index + [i]) != name + Suffix(index + [j])
  {
    PartInjective(i, j);
    SuffixSnoc(index, i);
    SuffixSnoc(index, j);
    AppendedDistinct(name, Suffix(index), Part(i), Part(j));
  }

  /** Different tails after the same head give different strings. */
  lemma AppendedDistinct(name: string, a: string, p: string, q: string)
    requires p != q
    ensures name + (a + p) != name + (a + q)
  {
    assert name + (a + p) == (name + a) + p;
    assert name + (a + q) == (name + a) + q;
    assert ((name + a) + p)[|name + a|..] == p;
    assert ((name + a) + q)[|name + a|..] == q;
  }

  /** Outside every group (all indices 0) a name carries no suffix. */
  lemma {:induction false} SuffixOfZeros(index: seq<nat>)
    requires forall k :: 0 <= k < |index| ==> index[k] == 0
    ensures Suffix(index) == ""
    decreases |index|
  {
    if index != [] {
      SuffixOfZeros(index[..|index| - 1]);
    }
  }

  /** Where every level has a positive pass number, a count reference names exactly the stored attribute. */
  lemma {:induction false} NestIsSuffix(index: seq<nat>)
    requires forall k :: 0 <= k < |index| ==> index[k] > 0
    ensures Nest(index) == Suffix(index)
    decreases |index|
  {
    if index != [] {
      NestIsSuffix(index[..|index| - 1]);
    }
  }

  /** `s.split(c)` of a string without `c` is the string alone. */
  lemma {:induction false} SplitNone(s: string, c: char)
    requires c !in s
    ensures Split(s, c) == [s]
    decreases |s|
  {
    if s != [] {
      SplitNone(s[1..], c);
      assert [s[0]] + s[1..] == s;
    }
  }

  /** `(a + c + b).split(c)` for `a` without `c` starts with `a`, followed by the split of `b`. */
  lemma {:induction false} SplitFirst(a: string, c: char, b: string)
    requires c !in a
    ensures Split(a + [c] + b, c) == [a] + Split(b, c)
    decreases |a|
  {
    if a == [] {
      assert [c] + b == ([] + [c] + b);
      assert ([c] + b)[1..] == b;
    } else {
      SplitFirst(a[1..], c, b);
      assert (a + [c] + b)[1..] == a[1..] + [c] + b;
      assert [a[0]] + a[1..] == a;
    }
  }

  /**
   * A group count `"name+n"` refers to the name followed by the `_NN` suffixes
   * of the first `n` levels; naming more levels than are open is an IndexError.
   */
  lemma NestNameRef(base: string, n: nat, index: seq<nat>)
    requires '+' !in base
    ensures n <= |index| ==> NestName(base + "+" + DecimalString(n), index) == Ok(base + Nest(index[..n]))
    ensures n > |index| ==> NestName(base + "+" + DecimalString(n), index) == Err(PyIndexError)
  {
    var d := DecimalString(n);
    DecimalStringValue(n);
    assert '+' !in d by {
      forall i | 0 <= i < |d| ensures d[i] != '+' {
        assert IsDigit(d[i]);
      }
    }
    SplitNone(d, '+');
    SplitFirst(base, '+', d);
    assert base + "+" + d == base + ['+'] + d;
    DecimalStringParses(n);
  }

  // ------------------------------------------------- walk monotonicity

  /**
   * What one step of the walk may do: in parse mode the payload is left as it
   * is, in build mode bytes are only appended; the offset never moves back
   * and no attribute disappears.
   */
  predicate Grows(ctx: Ctx, w: Walk, w2: Walk)
  {
    (Parsing(ctx) ==> w2.payload == w.payload)
    && (!Parsing(ctx) ==> w.payload <= w2.payload)
    && w.offset <= w2.offset
    && w.attrs.Keys <= w2.attrs.Keys
  }

  lemma GrowsTrans(ctx: Ctx, a: Walk, b: Walk, c: Walk)
    requires Grows(ctx, a, b) && Grows(ctx, b, c)
    ensures Grows(ctx, a, c)
  {
    if !Parsing(ctx) {
      assert c.payload[..|b.payload|][..|a.payload|] == c.payload[..|a.payload|];
    }
  }

  /** Storing an attribute keeps every attribute there was, and the key (or its `_HP` target) is then present. */
  lemma StoreKeeps(attrs: map<string, Value>, key: string, v: Value)
    requires Store(attrs, key, v).Ok?
    ensures attrs.Keys <= Store(attrs, key, v).value.Keys
    ensures Slice(key, 0, 3) != "_HP" ==> Store(attrs, key, v).value == attrs[key := v]
  {}

  lemma SingleGrows(ctx: Ctx, name: string, tag: string, index: seq<nat>, w: Walk)
    requires Single(ctx, name, tag, index, w).Ok?
    ensures Grows(ctx, w, Single(ctx, name, tag, index, w).value)
  {
    var key := name + Suffix(index);
    var asiz := TagSize(tag, w.payload).value;
    if Parsing(ctx) {
      var v := BytesToVal(Slice(w.payload, w.offset, w.offset + asiz), tag).value;
      StoreKeeps(w.attrs, key, v);
    } else {
      var nom := NomVal(tag).value;
      var v := if key in ctx.kw.named then ctx.kw.named[key] else nom;
      StoreKeeps(w.attrs, key, v);
    }
  }

  lemma {:induction false} FlagsKeep(ctx: Ctx, flags: seq<Entry>, index: seq<nat>, s: BitState)
    requires FlagsW(ctx, flags, index, s).Ok?
    ensures s.attrs.Keys <= FlagsW(ctx, flags, index, s).value.attrs.Keys
    decreases |flags|
  {
    if flags != [] {
      var s1 := Bits(ctx, flags[0], index, s).value;
      FlagsKeep(ctx, flags[1..], index, s1);
    }
  }

  lemma BitfieldGrows(ctx: Ctx, tag: string, flags: seq<Entry>, index: seq<nat>, w: Walk)
    requires tag in BITFIELD_TAGS
    requires Bitfield(ctx, tag, flags, index, w).Ok?
    ensures Grows(ctx, w, Bitfield(ctx, tag, flags, index, w).value)
  {
    BitfieldTagSize(tag);
    var bsiz: nat := AttSiz(tag).value;
    var bf0 := if Parsing(ctx) then FromLE(Slice(w.payload, w.offset, w.offset + bsiz)) else 0;
    FlagsKeep(ctx, flags, index, BitState(bf0, 0, w.attrs));
  }

  lemma {:induction false} EntryGrows(ctx: Ctx, e: Entry, index: seq<nat>, w: Walk)
    requires EntryW(ctx, e, index, w).Ok?
    ensures Grows(ctx, w, EntryW(ctx, e, index, w).value)
    decreases Size(e), 3, 0
  {
    match e
    case Scalar(name, tag) =>
      SingleGrows(ctx, name, tag, index, w);
    case Tuple(name, head, body) =>
      if IsBitfield(e) {
        if ctx.parsebf {
          BitfieldGrows(ctx, head.s, body, index, w);
        } else {
          SingleGrows(ctx, name, head.s, index, w);
        }
      } else {
        GroupGrows(ctx, head, body, index, w);
      }
  }

  lemma {:induction false} EntriesGrows(ctx: Ctx, es: seq<Entry>, index: seq<nat>, w: Walk)
    requires EntriesW(ctx, es, index, w).Ok?
    ensures Grows(ctx, w, EntriesW(ctx, es, index, w).value)
    decreases SizeAll(es), 4, 0
  {
    if es != [] {
      var w1 := EntryW(ctx, es[0], index, w).value;
      EntryGrows(ctx, es[0], index, w);
      EntriesGrows(ctx, es[1..], index, w1);
      GrowsTrans(ctx, w, w1, EntriesW(ctx, es, index, w).value);
    }
  }

  lemma {:induction false} GroupGrows(ctx: Ctx, head: Head, body: seq<Entry>, index: seq<nat>, w: Walk)
    requires Group(ctx, head, body, index, w).Ok?
    ensures Grows(ctx, w, Group(ctx, head, body, index, w).value)
    decreases SizeAll(body) + 1, 2, 0
  {
    var gsiz := GroupSize(head, index + [0], w.attrs).value;
    IterateGrows(ctx, body, index, 0, gsiz, w);
  }

  lemma {:induction false} IterateGrows(ctx: Ctx, body: seq<Entry>, index: seq<nat>, i: nat, n: int, w: Walk)
    requires Iterate(ctx, body, index, i, n, w).Ok?
    ensures Grows(ctx, w, Iterate(ctx, body, index, i, n, w).value)
    decreases SizeAll(body) + 1, 1, if n > i then n - i else 0
  {
    if i < n {
      var w1 := EntriesW(ctx, body, index + [i + 1], w).value;
      EntriesGrows(ctx, body, index + [i + 1], w);
      IterateGrows(ctx, body, index, i + 1, n, w1);
      GrowsTrans(ctx, w, w1, Iterate(ctx, body, index, i, n, w).value);
    }
  }

  /** A group whose count is zero or negative adds no bytes, no attributes and does not move the offset. */
  lemma GroupOfNone(ctx: Ctx, head: Head, body: seq<Entry>, index: seq<nat>, w: Walk)
    requires GroupSize(head, index + [0], w.attrs).Ok? && GroupSize(head, index + [0], w.attrs).value <= 0
    ensures Group(ctx, head, body, index, w) == Ok(w)
  {}

  lemma PrefixTrans<T>(a: seq<T>, b: seq<T>, c: seq<T>)
    requires a <= b && b <= c
    ensures a <= c
  {
    assert c[..|b|][..|a|] == c[..|a|];
  }

  // ------------------------------------------------- bitfield arithmetic

  lemma {:induction false} Pow2Add(a: nat, b: nat)
    ensures Pow2(a + b) == Pow2(a) * Pow2(b)
    decreases a
  {
    if a > 0 {
      Pow2Add(a - 1, b);
      assert Pow2(a + b) == 2 * Pow2(a - 1 + b);
    }
  }

  /** `a | (x << n)` is a sum when `a` has no bit at or above `n`. */
  lemma {:induction false} PyOrDisjoint(a: nat, x: nat, n: nat)
    requires a < Pow2(n)
    ensures PyOr(a, x * Pow2(n)) == a + x * Pow2(n)
    decreases n
  {
    var b := x * Pow2(n);
    if n > 0 && a != 0 && x != 0 {
      assert b == 2 * (x * Pow2(n - 1));
      assert b / 2 == x * Pow2(n - 1) && b % 2 == 0;
      PyOrDisjoint(a / 2, x, n - 1);
    }
  }

  lemma Cancel(x: int, y: int, p: int)
    requires p > 0 && x * p == y * p
    ensures x == y
  {
    ModUnique(x * p, p, x, 0);
    ModUnique(y * p, p, y, 0);
  }

  /**
   * The field of `a` bits at bit `off` of an integer whose low `off + a` bits
   * are `bf + x * 2^off` is `x`, and its low `off` bits are `bf`.
   */
  lemma ExtractField(f: nat, bf: nat, x: nat, off: nat, a: nat)
    requires bf < Pow2(off) && x < Pow2(a)
    requires f % Pow2(off + a) == bf + x * Pow2(off)
    ensures f % Pow2(off) == bf
    ensures (f / Pow2(off)) % Pow2(a) == x
  {
    Pow2Add(off, a);
    ExtractArith(f, bf, x, Pow2(off), Pow2(a));
  }

  lemma ExtractArith(f: nat, bf: nat, x: nat, p: nat, q: nat)
    requires p > 0 && q > 0 && bf < p && x < q
    requires f % (p * q) == bf + x * p
    ensures f % p == bf
    ensures (f / p) % q == x
  {
    var m := p * q;
    var h := f / m;
    assert f == h * m + (bf + x * p);
    assert h * m == (h * q) * p;
    assert (h * q) * p + x * p == (h * q + x) * p;
    ModUnique(f, p, h * q + x, bf);
    DivModNest(f, p, q);
    assert (f / p) % q * p == x * p;
    Cancel((f / p) % q, x, p);
  }

  // ------------------------------------------------- build, then parse

  /** A flag of a plain bit width whose keyword value, if one is given, is an integer that fits the width. */
  predicate FlagBack(kw: Kwargs, f: Entry, index: seq<nat>)
  {
    f.Scalar? && AttSiz(f.tag).Ok? && AttSiz(f.tag).value >= 0
    && var key := f.name + Suffix(index);
       (key in kw.named ==> kw.named[key].Int? && 0 <= kw.named[key].i < Pow2(AttSiz(f.tag).value))
  }

  predicate FlagsBack(kw: Kwargs, flags: seq<Entry>, index: seq<nat>)
  {
    forall k :: 0 <= k < |flags| ==> FlagBack(kw, flags[k], index)
  }

  /** One flag in build mode: its value (given or 0) is added at the bit offset. */
  lemma BitsBuildStep(ctx: Ctx, f: Entry, index: seq<nat>, bf: nat, off: nat, attrs: map<string, Value>)
    requires !Parsing(ctx) && FlagBack(ctx.kw, f, index) && bf < Pow2(off)
    ensures var key := f.name + Suffix(index);
      var x := if key in ctx.kw.named then ctx.kw.named[key].i else 0;
      0 <= x < Pow2(AttSiz(f.tag).value)
      && bf + x * Pow2(off) < Pow2(off + AttSiz(f.tag).value)
      && Bits(ctx, f, index, BitState(bf, off, attrs)) ==
         Ok(BitState(bf + x * Pow2(off), off + AttSiz(f.tag).value,
           if Slice(f.name, 0, 8) != "reserved" then attrs[key := Int(x)] else attrs))
  {
    var key := f.name + Suffix(index);
    var a: nat := AttSiz(f.tag).value;
    var x: nat := if key in ctx.kw.named then ctx.kw.named[key].i else 0;
    PyOrDisjoint(bf, x, off);
    Pow2Add(off, a);
    FieldBound(bf, x, Pow2(off), Pow2(a));
  }

  lemma FieldBound(bf: nat, x: nat, p: nat, q: nat)
    requires bf < p && x < q
    ensures bf + x * p < p * q
  {
    assert x * p <= (q - 1) * p;
    assert (q - 1) * p == p * q - p;
  }

  /** One flag in parse mode reads back the value build mode put there. */
  lemma BitsParseStep(ctx: Ctx, f: Entry, index: seq<nat>, bf: nat, x: nat, off: nat, attrs: map<string, Value>, v: nat)
    requires Parsing(ctx) && f.Scalar? && AttSiz(f.tag).Ok? && AttSiz(f.tag).value >= 0
    requires bf < Pow2(off) && x < Pow2(AttSiz(f.tag).value)
    requires v % Pow2(off + AttSiz(f.tag).value) == bf + x * Pow2(off)
    ensures v % Pow2(off) == bf
    ensures Bits(ctx, f, index, BitState(v, off, attrs)) ==
      Ok(BitState(v, off + AttSiz(f.tag).value,
        if Slice(f.name, 0, 8) != "reserved" then attrs[f.name + Suffix(index) := Int(x)] else attrs))
  {
    ExtractField(v, bf, x, off, AttSiz(f.tag).value);
  }

  /** One flag in build mode keeps the accumulator below `2^bfoffset`. */
  lemma FlagBuildStep(ctx: Ctx, f: Entry, index: seq<nat>, bf: nat, off: nat, attrs: map<string, Value>)
    requires !Parsing(ctx) && FlagBack(ctx.kw, f, index) && bf < Pow2(off)
    ensures Bits(ctx, f, index, BitState(bf, off, attrs)).Ok?
    ensures var s1 := Bits(ctx, f, index, BitState(bf, off, attrs)).value;
      off <= s1.bfoffset && 0 <= s1.bitfield < Pow2(s1.bfoffset)
  {
    BitsBuildStep(ctx, f, index, bf, off, attrs);
  }

  /** One flag in parse mode, on an integer whose low bits are the build-mode accumulator, reads the same attribute. */
  lemma FlagParseStep(ctxb: Ctx, ctxp: Ctx, f: Entry, index: seq<nat>, bf: nat, off: nat, attrs: map<string, Value>, v: nat)
    requires !Parsing(ctxb) && Parsing(ctxp) && FlagBack(ctxb.kw, f, index) && bf < Pow2(off)
    requires Bits(ctxb, f, index, BitState(bf, off, attrs)).Ok?
    requires var s1 := Bits(ctxb, f, index, BitState(bf, off, attrs)).value;
      s1.bfoffset >= 0 && v % Pow2(s1.bfoffset) == s1.bitfield
    ensures v % Pow2(off) == bf
    ensures var s1 := Bits(ctxb, f, index, BitState(bf, off, attrs)).value;
      Bits(ctxp, f, index, BitState(v, off, attrs)) == Ok(BitState(v, s1.bfoffset, s1.attrs))
  {
    BitsBuildStep(ctxb, f, index, bf, off, attrs);
    var key := f.name + Suffix(index);
    var x := if key in ctxb.kw.named then ctxb.kw.named[key].i else 0;
    BitsParseStep(ctxp, f, index, bf, x, off, attrs, v);
  }

  /** Building the flags from an accumulator below `2^off` keeps it below `2^bfoffset`. */
  lemma {:induction false} FlagsBuild(ctx: Ctx, flags: seq<Entry>, index: seq<nat>, bf: nat, off: nat, attrs: map<string, Value>)
    requires !Parsing(ctx) && FlagsBack(ctx.kw, flags, index) && bf < Pow2(off)
    requires FlagsW(ctx, flags, index, BitState(bf, off, attrs)).Ok?
    ensures var s := FlagsW(ctx, flags, index, BitState(bf, off, attrs)).value;
      off <= s.bfoffset && 0 <= s.bitfield < Pow2(s.bfoffset)
    decreases |flags|
  {
    if flags != [] {
      var f := flags[0];
      assert FlagBack(ctx.kw, f, index);
      FlagBuildStep(ctx, f, index, bf, off, attrs);
      var s1 := Bits(ctx, f, index, BitState(bf, off, attrs)).value;
      assert FlagsBack(ctx.kw, flags[1..], index) by {
        forall k | 0 <= k < |flags[1..]| ensures FlagBack(ctx.kw, flags[1..][k], index) {
          assert flags[1..][k] == flags[k + 1];
        }
      }
      FlagsBuild(ctx, flags[1..], index, s1.bitfield, s1.bfoffset, s1.attrs);
    }
  }

  /**
   * Parsing the flags out of an integer whose low bits are what build mode
   * accumulated stores the same attributes and ends at the same bit offset.
   */
  lemma {:induction false} FlagsParse(ctxb: Ctx, ctxp: Ctx, flags: seq<Entry>, index: seq<nat>, bf: nat, off: nat, attrs: map<string, Value>, v: nat)
    requires !Parsing(ctxb) && Parsing(ctxp)
    requires FlagsBack(ctxb.kw, flags, index) && bf < Pow2(off)
    requires FlagsW(ctxb, flags, index, BitState(bf, off, attrs)).Ok?
    requires var s := FlagsW(ctxb, flags, index, BitState(bf, off, attrs)).value;
      s.bfoffset >= 0 && v % Pow2(s.bfoffset) == s.bitfield
    ensures v % Pow2(off) == bf
    ensures var s := FlagsW(ctxb, flags, index, BitState(bf, off, attrs)).value;
      FlagsW(ctxp, flags, index, BitState(v, off, attrs)) == Ok(BitState(v, s.bfoffset, s.attrs))
    decreases |flags|
  {
    if flags != [] {
      var f := flags[0];
      assert FlagBack(ctxb.kw, f, index);
      FlagBuildStep(ctxb, f, index, bf, off, attrs);
      var s1 := Bits(ctxb, f, index, BitState(bf, off, attrs)).value;
      assert FlagsBack(ctxb.kw, flags[1..], index) by {
        forall k | 0 <= k < |flags[1..]| ensures FlagBack(ctxb.kw, flags[1..][k], index) {
          assert flags[1..][k] == flags[k + 1];
        }
      }
      FlagsParse(ctxb, ctxp, flags[1..], index, s1.bitfield, s1.bfoffset, s1.attrs, v);
      FlagParseStep(ctxb, ctxp, f, index, bf, off, attrs, v);
    }
  }

  /** Build mode of _set_attribute_bitfield: the flags are accumulated from 0 and the result appended. */
  lemma BitfieldBuildShape(ctx: Ctx, n: nat, flags: seq<Entry>, index: seq<nat>, w: Walk)
    requires !Parsing(ctx)
    requires BitfieldSized(ctx, n, flags, index, w).Ok?
    ensures var s := FlagsW(ctx, flags, index, BitState(0, 0, w.attrs));
      s.Ok? && ToBytes(s.value.bitfield, n, false).Ok?
      && BitfieldSized(ctx, n, flags, index, w) ==
         Ok(Walk(w.payload + ToBytes(s.value.bitfield, n, false).value, s.value.attrs, w.offset + n))
  {}

  /** Parse mode of _set_attribute_bitfield: the flags are taken from the little-endian container at the offset. */
  lemma BitfieldParseShape(ctx: Ctx, n: nat, flags: seq<Entry>, index: seq<nat>, w: Walk, f: nat, s: BitState)
    requires Parsing(ctx)
    requires FromLE(Slice(w.payload, w.offset, w.offset + n)) == f
    requires FlagsW(ctx, flags, index, BitState(f, 0, w.attrs)) == Ok(s)
    ensures BitfieldSized(ctx, n, flags, index, w) == Ok(Walk(w.payload, s.attrs, w.offset + n))
  {}

  /** The flags accumulated from an empty bitfield are read back from the accumulated value. */
  lemma FlagsFromZeroBack(ctxb: Ctx, ctxp: Ctx, flags: seq<Entry>, index: seq<nat>, attrs: map<string, Value>)
    requires !Parsing(ctxb) && Parsing(ctxp) && FlagsBack(ctxb.kw, flags, index)
    requires FlagsW(ctxb, flags, index, BitState(0, 0, attrs)).Ok?
    ensures var s := FlagsW(ctxb, flags, index, BitState(0, 0, attrs)).value;
      s.bitfield >= 0 && FlagsW(ctxp, flags, index, BitState(s.bitfield, 0, attrs)) == Ok(BitState(s.bitfield, s.bfoffset, s.attrs))
  {
    FlagsBuild(ctxb, flags, index, 0, 0, attrs);
    var s := FlagsW(ctxb, flags, index, BitState(0, 0, attrs)).value;
    var f: nat := s.bitfield;
    ModUnique(f, Pow2(s.bfoffset), 0, f);
    FlagsParse(ctxb, ctxp, flags, index, 0, 0, attrs, f);
  }

  /** A bitfield of a given width built from fitting flag values parses back into the same flags. */
  lemma BitfieldSizedBuildParse(ctxb: Ctx, ctxp: Ctx, n: nat, flags: seq<Entry>, index: seq<nat>, pb: seq<byte>, attrs: map<string, Value>, p: seq<byte>)
    requires !Parsing(ctxb) && Parsing(ctxp)
    requires FlagsBack(ctxb.kw, flags, index)
    requires BitfieldSized(ctxb, n, flags, index, Walk(pb, attrs, |pb|)).Ok?
    requires BitfieldSized(ctxb, n, flags, index, Walk(pb, attrs, |pb|)).value.payload <= p
    ensures var b := BitfieldSized(ctxb, n, flags, index, Walk(pb, attrs, |pb|)).value;
      b.offset == |b.payload| && BitfieldSized(ctxp, n, flags, index, Walk(p, attrs, |pb|)) == Ok(Walk(p, b.attrs, b.offset))
  {
    BitfieldBuildShape(ctxb, n, flags, index, Walk(pb, attrs, |pb|));
    var s := FlagsW(ctxb, flags, index, BitState(0, 0, attrs)).value;
    FlagsFromZeroBack(ctxb, ctxp, flags, index, attrs);
    var f: nat := s.bitfield;
    UnsignedBytesBack(f, n, pb, p);
    BitfieldParseShape(ctxp, n, flags, index, Walk(p, attrs, |pb|), f, BitState(f, s.bfoffset, s.attrs));
  }

  /** A bitfield built from fitting flag values parses back into the same flags. */
  lemma BitfieldBuildParse(ctxb: Ctx, ctxp: Ctx, tag: string, flags: seq<Entry>, index: seq<nat>, pb: seq<byte>, attrs: map<string, Value>, p: seq<byte>)
    requires !Parsing(ctxb) && Parsing(ctxp) && tag in BITFIELD_TAGS
    requires FlagsBack(ctxb.kw, flags, index)
    requires Bitfield(ctxb, tag, flags, index, Walk(pb, attrs, |pb|)).Ok?
    requires Bitfield(ctxb, tag, flags, index, Walk(pb, attrs, |pb|)).value.payload <= p
    ensures var b := Bitfield(ctxb, tag, flags, index, Walk(pb, attrs, |pb|)).value;
      b.offset == |b.payload| && Bitfield(ctxp, tag, flags, index, Walk(p, attrs, |pb|)) == Ok(Walk(p, b.attrs, b.offset))
  {
    BitfieldTagSize(tag);
    BitfieldSizedBuildParse(ctxb, ctxp, AttSiz(tag).value, flags, index, pb, attrs, p);
  }

  /** Unsigned little-endian bytes appended after `pb` read back as the same value from anything the result is a prefix of. */
  lemma UnsignedBytesBack(f: nat, n: nat, pb: seq<byte>, p: seq<byte>)
    requires ToBytes(f, n, false).Ok? && pb + ToBytes(f, n, false).value <= p
    ensures FromLE(Slice(p, |pb|, |pb| + n)) == f
  {
    var bytes := ToBytes(f, n, false).value;
    PrefixSlice(pb, bytes, p);
    ToBytesThenFrom(f, n, false);
    assert FromBytes(bytes, false) == FromLE(bytes);
  }

  /** Bytes appended after `a` are found again at offset `|a|` of anything the result is a prefix of. */
  lemma PrefixSlice(a: seq<byte>, b: seq<byte>, p: seq<byte>)
    requires a + b <= p
    ensures Slice(p, |a|, |a| + |b|) == b
  {
    assert p[..|a| + |b|] == a + b;
    assert p[|a|..|a| + |b|] == (a + b)[|a|..];
  }

  /**
   * A scalar whose encoding parse mode reads back: an integer tag (any value
   * that encodes reads back), or a fixed-width X tag whose keyword value, if
   * one is given, is bytes of that width.
   */
  predicate ScalarBack(kw: Kwargs, key: string, tag: string)
  {
    IntTag(tag)
    || (|tag| == 4 && Kind(tag) == "X" && ParseDecimal(tag[1..4]).Ok?
        && (key in kw.named ==> kw.named[key].Bytes? && |kw.named[key].b| == ParseDecimal(tag[1..4]).value))
  }

  /** A scalar that encodes, at width `asiz`, to bytes that decode to the value stored. */
  lemma ScalarEncodes(kw: Kwargs, key: string, tag: string, v: Value)
    requires ScalarBack(kw, key, tag)
    requires v == (if key in kw.named then kw.named[key] else NomVal(tag).value)
    requires NomVal(tag).Ok? && ValToBytes(v, tag).Ok?
    ensures tag != CH && AttSiz(tag).Ok? && AttSiz(tag).value >= 0
    ensures |ValToBytes(v, tag).value| == AttSiz(tag).value
    ensures BytesToVal(ValToBytes(v, tag).value, tag) == Ok(v)
  {
    if IntTag(tag) {
      IntTagSize(tag);
      assert Kind(tag) in ATTTYPE_KINDS;
      assert v.Int?;
      if !Fits(v.i, Width(tag), Kind(tag) == "I") {
        IntValOverflow(v.i, tag);
      }
      IntValRoundTrip(v.i, tag);
    } else {
      assert Slice(tag, 1, 4) == tag[1..4];
      assert Kind(tag) in ATTTYPE_KINDS;
    }
  }

  lemma SingleBuildParse(ctxb: Ctx, ctxp: Ctx, name: string, tag: string, index: seq<nat>, pb: seq<byte>, attrs: map<string, Value>, p: seq<byte>)
    requires !Parsing(ctxb) && Parsing(ctxp)
    requires ScalarBack(ctxb.kw, name + Suffix(index), tag)
    requires Single(ctxb, name, tag, index, Walk(pb, attrs, |pb|)).Ok?
    requires Single(ctxb, name, tag, index, Walk(pb, attrs, |pb|)).value.payload <= p
    ensures var b := Single(ctxb, name, tag, index, Walk(pb, attrs, |pb|)).value;
      b.offset == |b.payload| && Single(ctxp, name, tag, index, Walk(p, attrs, |pb|)) == Ok(Walk(p, b.attrs, b.offset))
  {
    var key := name + Suffix(index);
    var kw := ctxb.kw;
    var v := if key in kw.named then kw.named[key] else NomVal(tag).value;
    ScalarEncodes(kw, key, tag, v);
    var asiz: nat := AttSiz(tag).value;
    var bytes := ValToBytes(v, tag).value;
    var a1 := Store(attrs, key, v).value;
    var wb, wp := Walk(pb, attrs, |pb|), Walk(p, attrs, |pb|);
    assert Single(ctxb, name, tag, index, wb) == SingleBuild(kw, key, tag, asiz, wb);
    assert SingleBuild(kw, key, tag, asiz, wb) == Ok(Walk(pb + bytes, a1, |pb| + asiz));
    PrefixSlice(pb, bytes, p);
    assert Single(ctxp, name, tag, index, wp) == SingleParse(key, tag, asiz, wp);
    assert SingleParse(key, tag, asiz, wp) == Ok(Walk(p, a1, |pb| + asiz));
  }

  /**
   * The schema entries whose encodings parse mode reads back: scalars as
   * ScalarBack says, bitfields of fitting flags (or, with bitfields not
   * parsed, of a fitting container), and groups whose body does so in every pass.
   */
  ghost predicate EntryBack(pbf: bool, kw: Kwargs, e: Entry, index: seq<nat>)
    decreases Size(e), 1
  {
    match e
    case Scalar(name, tag) => ScalarBack(kw, name + Suffix(index), tag)
    case Tuple(name, head, body) =>
      if IsBitfield(e) then
        (if pbf then FlagsBack(kw, body, index) else ScalarBack(kw, name + Suffix(index), head.s))
      else forall i: nat :: EntriesBack(pbf, kw, body, index + [i])
  }

  ghost predicate EntriesBack(pbf: bool, kw: Kwargs, es: seq<Entry>, index: seq<nat>)
    decreases SizeAll(es), 2
  {
    es == [] || (EntryBack(pbf, kw, es[0], index) && EntriesBack(pbf, kw, es[1..], index))
  }

  /** The two walks of the round trip: one building from keywords, one parsing with the same bitfield setting. */
  predicate Pair(ctxb: Ctx, ctxp: Ctx)
  {
    !Parsing(ctxb) && Parsing(ctxp) && ctxb.parsebf == ctxp.parsebf
  }

  /**
   * Build then parse, one entry: if building from a payload `pb` ends in a
   * payload that `p` extends, then parsing `p` from offset `|pb|` with the
   * same attributes stores the same attributes and ends where the build did,
   * and the build's offset is its payload length.
   */
  lemma {:induction false} EntryBuildParse(ctxb: Ctx, ctxp: Ctx, e: Entry, index: seq<nat>, pb: seq<byte>, attrs: map<string, Value>, p: seq<byte>)
    requires Pair(ctxb, ctxp) && EntryBack(ctxb.parsebf, ctxb.kw, e, index)
    requires EntryW(ctxb, e, index, Walk(pb, attrs, |pb|)).Ok?
    requires EntryW(ctxb, e, index, Walk(pb, attrs, |pb|)).value.payload <= p
    ensures var b := EntryW(ctxb, e, index, Walk(pb, attrs, |pb|)).value;
      b.offset == |b.payload| && EntryW(ctxp, e, index, Walk(p, attrs, |pb|)) == Ok(Walk(p, b.attrs, b.offset))
    decreases Size(e), 3, 0
  {
    match e
    case Scalar(name, tag) =>
      SingleBuildParse(ctxb, ctxp, name, tag, index, pb, attrs, p);
    case Tuple(name, head, body) =>
      if IsBitfield(e) {
        if ctxb.parsebf {
          BitfieldBuildParse(ctxb, ctxp, head.s, body, index, pb, attrs, p);
        } else {
          SingleBuildParse(ctxb, ctxp, name, head.s, index, pb, attrs, p);
        }
      } else {
        GroupBuildParse(ctxb, ctxp, head, body, index, pb, attrs, p);
      }
  }

  lemma {:induction false} EntriesBuildParse(ctxb: Ctx, ctxp: Ctx, es: seq<Entry>, index: seq<nat>, pb: seq<byte>, attrs: map<string, Value>, p: seq<byte>)
    requires Pair(ctxb, ctxp) && EntriesBack(ctxb.parsebf, ctxb.kw, es, index)
    requires EntriesW(ctxb, es, index, Walk(pb, attrs, |pb|)).Ok?
    requires EntriesW(ctxb, es, index, Walk(pb, attrs, |pb|)).value.payload <= p
    ensures var b := EntriesW(ctxb, es, index, Walk(pb, attrs, |pb|)).value;
      b.offset == |b.payload| && EntriesW(ctxp, es, index, Walk(p, attrs, |pb|)) == Ok(Walk(p, b.attrs, b.offset))
    decreases SizeAll(es), 4, 0
  {
    if es != [] {
      var w0 := Walk(pb, attrs, |pb|);
      var w1 := EntryW(ctxb, es[0], index, w0).value;
      var fin := EntriesW(ctxb, es, index, w0).value;
      assert fin == EntriesW(ctxb, es[1..], index, w1).value;
      EntriesGrows(ctxb, es[1..], index, w1);
      PrefixTrans(w1.payload, fin.payload, p);
      EntryBuildParse(ctxb, ctxp, es[0], index, pb, attrs, p);
      assert w1 == Walk(w1.payload, w1.attrs, |w1.payload|);
      EntriesBuildParse(ctxb, ctxp, es[1..], index, w1.payload, w1.attrs, p);
    }
  }

  lemma {:induction false} GroupBuildParse(ctxb: Ctx, ctxp: Ctx, head: Head, body: seq<Entry>, index: seq<nat>, pb: seq<byte>, attrs: map<string, Value>, p: seq<byte>)
    requires Pair(ctxb, ctxp) && forall i: nat :: EntriesBack(ctxb.parsebf, ctxb.kw, body, index + [i])
    requires Group(ctxb, head, body, index, Walk(pb, attrs, |pb|)).Ok?
    requires Group(ctxb, head, body, index, Walk(pb, attrs, |pb|)).value.payload <= p
    ensures var b := Group(ctxb, head, body, index, Walk(pb, attrs, |pb|)).value;
      b.offset == |b.payload| && Group(ctxp, head, body, index, Walk(p, attrs, |pb|)) == Ok(Walk(p, b.attrs, b.offset))
    decreases SizeAll(body) + 1, 2, 0
  {
    var gsiz := GroupSize(head, index + [0], attrs).value;
    IterateBuildParse(ctxb, ctxp, body, index, 0, gsiz, pb, attrs, p);
  }

  lemma {:induction false} IterateBuildParse(ctxb: Ctx, ctxp: Ctx, body: seq<Entry>, index: seq<nat>, i: nat, n: int, pb: seq<byte>, attrs: map<string, Value>, p: seq<byte>)
    requires Pair(ctxb, ctxp) && forall j: nat :: EntriesBack(ctxb.parsebf, ctxb.kw, body, index + [j])
    requires Iterate(ctxb, body, index, i, n, Walk(pb, attrs, |pb|)).Ok?
    requires Iterate(ctxb, body, index, i, n, Walk(pb, attrs, |pb|)).value.payload <= p
    ensures var b := Iterate(ctxb, body, index, i, n, Walk(pb, attrs, |pb|)).value;
      b.offset == |b.payload| && Iterate(ctxp, body, index, i, n, Walk(p, attrs, |pb|)) == Ok(Walk(p, b.attrs, b.offset))
    decreases SizeAll(body) + 1, 1, if n > i then n - i else 0
  {
    if i < n {
      var w0 := Walk(pb, attrs, |pb|);
      var w1 := EntriesW(ctxb, body, index + [i + 1], w0).value;
      var fin := Iterate(ctxb, body, index, i, n, w0).value;
      assert fin == Iterate(ctxb, body, index, i + 1, n, w1).value;
      IterateGrows(ctxb, body, index, i + 1, n, w1);
      PrefixTrans(w1.payload, fin.payload, p);
      assert EntriesBack(ctxb.parsebf, ctxb.kw, body, index + [i + 1]);
      EntriesBuildParse(ctxb, ctxp, body, index + [i + 1], pb, attrs, p);
      assert w1 == Walk(w1.payload, w1.attrs, |w1.payload|);
      IterateBuildParse(ctxb, ctxp, body, index, i + 1, n, w1.payload, w1.attrs, p);
    }
  }

  /** The top-level loop of _do_attributes walks the schema as one dictionary at no group level. */
  lemma {:induction false} TopWalk(ctx: Ctx, es: seq<Entry>, w: Walk, anam: Option<string>)
    ensures TopW(ctx, es, w, anam).0 == EntriesW(ctx, es, [], w)
    decreases |es|
  {
    if es != [] {
      match EntryW(ctx, es[0], [], w)
      case Err(_) =>
      case Ok(w1) => TopWalk(ctx, es[1..], w1, Some(es[0].name));
    }
  }

  // ------------------------------------------------- constructed messages

  /** _do_len_checksum: the length is the payload length as 2 little-endian bytes, the checksum covers id, length and payload. */
  lemma LenChecksumSpec(t: Tables, identity: string, payload: Option<seq<byte>>)
    ensures var p := payload.GetOr([]);
      LenChecksum(t, identity, payload).Ok? <==> MsgIdBytes(t.msgids, identity).Ok? && |p| < 0x10000
    ensures var p := payload.GetOr([]);
      LenChecksum(t, identity, payload).Ok? ==>
        var lc := LenChecksum(t, identity, payload).value;
        |lc.0| == 2 && FromLE(lc.0) == |p| && |lc.1| == 2
        && lc.1 == Crc2Bytes(MsgIdBytes(t.msgids, identity).value + lc.0 + p)
  {
    var p := payload.GetOr([]);
    assert Pow256(2) == 0x10000;
    TagWidth(U2, 2);
    if |p| < 0x10000 {
      TwoBytes(|p|);
    }
    if MsgIdBytes(t.msgids, identity).Ok? && |p| < 0x10000 {
      var m := MsgIdBytes(t.msgids, identity).value + LittleEndian(|p|, 2) + p;
      Crc2BytesValue(m);
    }
  }

  /** A constructed message keeps its name and revision, and its length and checksum are those of its payload. */
  lemma AttributesFields(t: Tables, identity: string, revno: int, parsebf: bool, kw: Kwargs)
    requires Attributes(t, identity, revno, parsebf, kw).Ok?
    ensures var m := Attributes(t, identity, revno, parsebf, kw).value;
      m.identity == identity && m.revno == revno && m.parsebf == parsebf
      && LenChecksum(t, identity, m.payload) == Ok((m.length, m.crc))
      && (m.payload.None? <==> NoKwargs(kw))
  {}

  /** Constructed from `payload=p` alone, the message keeps exactly `p` as its payload: parse mode never changes it. */
  lemma PayloadKept(t: Tables, identity: string, revno: int, parsebf: bool, p: seq<byte>)
    requires Attributes(t, identity, revno, parsebf, PayloadOnly(p)).Ok?
    ensures Attributes(t, identity, revno, parsebf, PayloadOnly(p)).value.payload == Some(p)
  {
    var ctx := Ctx(parsebf, PayloadOnly(p));
    var pdict := GetDict(t, identity).value;
    var w := Walk(p, map[], 0);
    TopWalk(ctx, pdict, w, None);
    EntriesGrows(ctx, pdict, [], w);
  }

  /** With no keyword arguments the message has no payload, no attributes, and is flagged not yet implemented. */
  lemma NoKwargsMessage(t: Tables, identity: string, revno: int, parsebf: bool, kw: Kwargs)
    requires NoKwargs(kw)
    ensures Attributes(t, identity, revno, parsebf, kw).Ok? <==> MsgIdBytes(t.msgids, identity).Ok?
    ensures Attributes(t, identity, revno, parsebf, kw).Ok? ==>
      var m := Attributes(t, identity, revno, parsebf, kw).value;
      m.nyi && m.payload.None? && m.attrs == map[] && FromLE(m.length) == 0
  {
    LenChecksumSpec(t, identity, None);
  }

  /** An integer keyword value the attribute's width cannot hold is reported as an overflow of that attribute of that message. */
  lemma OverflowNamesAttribute(t: Tables, identity: string, revno: int, parsebf: bool, kw: Kwargs, name: string, tag: string)
    requires identity in t.blocks && t.blocks[identity] == [Scalar(name, tag)]
    requires IntTag(tag) && kw.payload.None? && Slice(name, 0, 3) != "_HP"
    requires name in kw.named && kw.named[name].Int? && !Fits(kw.named[name].i, Width(tag), Kind(tag) == "I")
    ensures Attributes(t, identity, revno, parsebf, kw) == Err(SBFTypeError(OverflowFor(name, identity)))
  {
    IntValOverflow(kw.named[name].i, tag);
    IntTagSize(tag);
    assert Suffix([]) == "" && name + "" == name;
    assert |kw.named| > 0;
  }

  /** A keyword value of the wrong type family is reported as an incorrect type for that attribute of that message. */
  lemma WrongTypeNamesAttribute(t: Tables, identity: string, revno: int, parsebf: bool, kw: Kwargs, name: string, tag: string)
    requires identity in t.blocks && t.blocks[identity] == [Scalar(name, tag)]
    requires IntTag(tag) && kw.payload.None?
    requires name in kw.named && !kw.named[name].Int?
    ensures Attributes(t, identity, revno, parsebf, kw) == Err(SBFTypeError(IncorrectType(name, identity)))
  {
    IntTagSize(tag);
    assert Kind(tag) in ATTTYPE_KINDS;
    assert Suffix([]) == "" && name + "" == name;
    assert |kw.named| > 0;
  }

  /**
   * When the entries before the k-th walk successfully and the k-th fails,
   * the top-level loop fails with that error and `anam` names the k-th
   * entry, whatever happened inside it (a group or a bitfield included).
   */
  lemma {:induction false} TopWFailsAt(ctx: Ctx, es: seq<Entry>, w: Walk, anam: Option<string>, k: nat, wk: Walk, e: Error)
    requires k < |es|
    requires TopW(ctx, es[..k], w, anam).0 == Ok(wk)
    requires EntryW(ctx, es[k], [], wk) == Err(e)
    ensures TopW(ctx, es, w, anam) == (Err(e), Some(es[k].name))
    decreases k
  {
    if k == 0 {
      assert es[..0] == [];
    } else {
      var pre := es[..k];
      assert pre[0] == es[0] && pre[1..] == es[1..][..k - 1];
      match EntryW(ctx, es[0], [], w)
      case Err(e0) =>
        assert false;
      case Ok(w1) =>
        assert TopW(ctx, pre, w, anam) == TopW(ctx, es[1..][..k - 1], w1, Some(es[0].name));
        TopWFailsAt(ctx, es[1..], w1, Some(es[0].name), k - 1, wk, e);
        assert es[1..][k - 1] == es[k];
    }
  }

  /** A failing top-level loop fails at some entry whose predecessors all walk successfully. */
  lemma {:induction false} TopWFailureAt(ctx: Ctx, es: seq<Entry>, w: Walk, anam: Option<string>)
    requires TopW(ctx, es, w, anam).0.Err?
    ensures exists k :: (0 <= k < |es| && TopW(ctx, es[..k], w, anam).0.Ok?
      && EntryW(ctx, es[k], [], TopW(ctx, es[..k], w, anam).0.value) == Err(TopW(ctx, es, w, anam).0.error)
      && TopW(ctx, es, w, anam).1 == Some(es[k].name))
    decreases |es|
  {
    assert es != [];
    assert es[..0] == [];
    match EntryW(ctx, es[0], [], w)
    case Err(e0) =>
      assert TopW(ctx, es[..0], w, anam).0.Ok?;
    case Ok(w1) =>
      TopWFailureAt(ctx, es[1..], w1, Some(es[0].name));
      var j :| 0 <= j < |es[1..]| && TopW(ctx, es[1..][..j], w1, Some(es[0].name)).0.Ok?
        && EntryW(ctx, es[1..][j], [], TopW(ctx, es[1..][..j], w1, Some(es[0].name)).0.value) == Err(TopW(ctx, es[1..], w1, Some(es[0].name)).0.error)
        && TopW(ctx, es[1..], w1, Some(es[0].name)).1 == Some(es[1..][j].name);
      var pre := es[..j + 1];
      assert pre[0] == es[0] && pre[1..] == es[1..][..j];
      assert TopW(ctx, pre, w, anam) == TopW(ctx, es[1..][..j], w1, Some(es[0].name));
      assert es[1..][j] == es[j + 1];
  }

  /**
   * The exception handler of _do_attributes: a conversion error raised
   * while walking the k-th top-level attribute of any schema, at any depth,
   * becomes an SBFTypeError naming that attribute and the message; an
   * OverflowError becomes the overflow report; any other error passes.
   */
  lemma WalkErrorNamesAttribute(t: Tables, identity: string, revno: int, parsebf: bool, kw: Kwargs, k: nat, wk: Walk, e: Error)
    requires !NoKwargs(kw) && GetDict(t, identity).Ok?
    requires var pdict := GetDict(t, identity).value;
      k < |pdict| && TopW(Ctx(parsebf, kw), pdict[..k], Walk(kw.payload.GetOr([]), map[], 0), None).0 == Ok(wk)
      && EntryW(Ctx(parsebf, kw), pdict[k], [], wk) == Err(e)
    ensures var name := GetDict(t, identity).value[k].name;
      Attributes(t, identity, revno, parsebf, kw) ==
        Err(if e == PyTypeError || e == PyValueError || e == PyAttributeError then SBFTypeError(IncorrectType(name, identity))
            else if e == PyOverflowError then SBFTypeError(OverflowFor(name, identity))
            else e)
  {
    var pdict := GetDict(t, identity).value;
    TopWFailsAt(Ctx(parsebf, kw), pdict, Walk(kw.payload.GetOr([]), map[], 0), None, k, wk, e);
  }

  /** Without keyword values a name missing from the id table fails in msgid2bytes, with an SBFMessageError. */
  lemma UnknownNameNoKwargs(t: Tables, identity: string, revno: int, parsebf: bool, kw: Kwargs)
    requires NoKwargs(kw)
    requires forall j :: 0 <= j < |t.msgids| ==> t.msgids[j].1 != identity
    ensures Attributes(t, identity, revno, parsebf, kw) == Err(SBFMessageError(NoIdForName(identity)))
  {
    assert FirstWith(t.msgids, identity).None?;
  }

  /**
   * With keyword values a name without a schema is an SBFMessageError
   * naming it; the handler of _do_attributes lets it through, as it does
   * the empty name.
   */
  lemma UnknownNameRefused(t: Tables, identity: string, revno: int, parsebf: bool, kw: Kwargs)
    requires !NoKwargs(kw) && identity !in t.blocks
    ensures Attributes(t, identity, revno, parsebf, kw) == Err(SBFMessageError(UnknownMessageType(identity)))
  {}

  /**
   * _get_dict as written agrees with the intended one on known names and on
   * the empty name; any other unknown name raises ValueError from
   * escapeall, before the loop of _do_attributes has bound `anam`, so its
   * handler raises UnboundLocalError instead of the SBFMessageError.
   */
  lemma UnknownNameAsWritten(t: Tables, identity: string)
    ensures identity in t.blocks || identity == "" ==> GetDictAsWritten(t, identity) == GetDict(t, identity)
    ensures identity !in t.blocks && identity != "" ==>
      GetDictAsWritten(t, identity) == Err(PyValueError)
      && Convert(GetDictAsWritten(t, identity).error, None, identity) == PyUnboundLocalError
      && Convert(GetDict(t, identity).error, None, identity) == SBFMessageError(UnknownMessageType(identity))
  {}

  /** The smallest input that shows it: a one-letter name with an empty payload. */
  lemma UnknownNameExample(t: Tables)
    requires "X" !in t.blocks
    ensures Convert(GetDictAsWritten(t, "X").error, None, "X") == PyUnboundLocalError
    ensures Attributes(t, "X", 0, true, KwargsRaw(Some([]), map[])) == Err(SBFMessageError(UnknownMessageType("X")))
  {
    UnknownNameAsWritten(t, "X");
    UnknownNameRefused(t, "X", 0, true, KwargsRaw(Some([]), map[]));
  }

  /**
   * The message constructor on a name with keyword values, then on the
   * table id of that name with the built payload, gives the same message,
   * except that the revision is then the one the id gives.
   */
  lemma AttributesBuildParse(t: Tables, identity: string, revno: int, rev2: int, pbf: bool, kw: Kwargs)
    requires kw.payload.None? && |kw.named| > 0
    requires identity in t.blocks && EntriesBack(pbf, kw, t.blocks[identity], [])
    requires Attributes(t, identity, revno, pbf, kw).Ok?
    ensures var m := Attributes(t, identity, revno, pbf, kw).value;
      m.payload.Some? && Attributes(t, identity, rev2, pbf, PayloadOnly(m.payload.value)) == Ok(m.(revno := rev2))
  {
    var pdict := t.blocks[identity];
    var ctxb := Ctx(pbf, kw);
    var w0 := Walk([], map[], 0);
    TopWalk(ctxb, pdict, w0, None);
    var w := EntriesW(ctxb, pdict, [], w0).value;
    var m := Attributes(t, identity, revno, pbf, kw).value;
    assert m.payload == Some(w.payload) && m.attrs == w.attrs;
    var kwp := PayloadOnly(w.payload);
    var ctxp := Ctx(pbf, kwp);
    EntriesBuildParse(ctxb, ctxp, pdict, [], [], map[], w.payload);
    TopWalk(ctxp, pdict, Walk(w.payload, map[], 0), None);
    assert EntriesW(ctxp, pdict, [], Walk(w.payload, map[], 0)) == Ok(Walk(w.payload, w.attrs, w.offset));
  }

  /** SBF_MSGIDS is a dictionary of 13-bit ids: every key once, each below 0x2000. */
  predicate ValidIds(t: seq<(int, string)>)
  {
    (forall j :: 0 <= j < |t| ==> 0 <= t[j].0 < 0x2000)
    && (forall i, j :: 0 <= i < j < |t| ==> t[i].0 != t[j].0)
  }

  lemma {:induction false} IdNameAt(t: seq<(int, string)>, k: nat)
    requires ValidIds(t) && k < |t|
    ensures IdName(t, t[k].0) == Some(t[k].1)
    decreases k
  {
    if k > 0 {
      assert t[0].0 != t[k].0;
      assert ValidIds(t[1..]) by {
        forall j | 0 <= j < |t[1..]| ensures 0 <= t[1..][j].0 < 0x2000 {
          assert t[1..][j] == t[j + 1];
        }
        forall i, j | 0 <= i < j < |t[1..]| ensures t[1..][i].0 != t[1..][j].0 {
          assert t[1..][i] == t[i + 1] && t[1..][j] == t[j + 1];
        }
      }
      IdNameAt(t[1..], k - 1);
    }
  }

  /** A numeric id is masked to 13 bits before the lookup, so the revision taken from it is 0. */
  lemma MaskedRevisionZero(id: int)
    ensures 0 <= id % 0x2000 < 0x2000 && RevBits(id % 0x2000) == 0
  {
    var masked := id % 0x2000;
    assert masked % 0x10000 == masked;
  }

  /** A key of the table looks up its own name, with revision 0. */
  lemma LookupTableId(t: Tables, k: nat)
    requires ValidIds(t.msgids) && k < |t.msgids|
    ensures Lookup(t.msgids[k].0, t) == Ok((t.msgids[k].1, 0))
  {
    var key := t.msgids[k].0;
    IdNameAt(t.msgids, k);
    assert 0 <= key < 0x2000;
    ModUnique(key, 0x2000, 0, key);
    MaskedRevisionZero(key);
  }

  /** The constructor on a numeric id is `_do_attributes` on the name and revision the lookup gives. */
  lemma ConstructById(id: int, revno: int, parsebf: bool, kw: Kwargs, t: Tables, name: string, rev: int)
    requires Lookup(id, t) == Ok((name, rev))
    ensures Construct(ById(id), revno, parsebf, kw, t) == Attributes(t, name, rev, parsebf, kw)
  {}

  /** A numeric id always yields revision 0: the revision bits are taken from the id after they were masked off. */
  lemma NumericIdRevisionZero(id: int, revno: int, parsebf: bool, kw: Kwargs, t: Tables)
    requires Construct(ById(id), revno, parsebf, kw, t).Ok?
    ensures Construct(ById(id), revno, parsebf, kw, t).value.revno == 0
    ensures Construct(ById(id), revno, parsebf, kw, t).value.identity == IdName(t.msgids, id % 0x2000).value
  {
    MaskedRevisionZero(id);
    var name := IdName(t.msgids, id % 0x2000).value;
    assert Lookup(id, t) == Ok((name, 0));
    ConstructById(id, revno, parsebf, kw, t, name, 0);
    AttributesFields(t, name, 0, parsebf, kw);
  }

  /** An id with no table entry is refused, naming the masked id. */
  lemma UnknownIdRefused(id: int, revno: int, parsebf: bool, kw: Kwargs, t: Tables)
    requires forall j :: 0 <= j < |t.msgids| ==> t.msgids[j].0 != id % 0x2000
    ensures Construct(ById(id), revno, parsebf, kw, t) == Err(SBFMessageError(UnknownMessageId(id % 0x2000)))
  {}

  /** A constructed message's name has an id in the table: the checksum covers its id bytes. */
  lemma AttributesHasId(t: Tables, identity: string, revno: int, parsebf: bool, kw: Kwargs)
    requires Attributes(t, identity, revno, parsebf, kw).Ok?
    ensures FirstWith(t.msgids, identity).Some?
  {
    AttributesFields(t, identity, revno, parsebf, kw);
    var m := Attributes(t, identity, revno, parsebf, kw).value;
    assert LenChecksum(t, identity, m.payload).Ok?;
    assert MsgIdBytes(t.msgids, identity).Ok?;
  }

  /**
   * Round trip of the constructor: a message built by name from keyword
   * values, rebuilt from its table id and its payload, is the same message
   * with revision 0.
   */
  lemma ConstructBuildParse(name: string, revno: int, rev2: int, pbf: bool, kw: Kwargs, t: Tables)
    requires ValidIds(t.msgids)
    requires kw.payload.None? && |kw.named| > 0
    requires name in t.blocks && EntriesBack(pbf, kw, t.blocks[name], [])
    requires Construct(ByName(name), revno, pbf, kw, t).Ok?
    ensures FirstWith(t.msgids, name).Some?
    ensures var m := Construct(ByName(name), revno, pbf, kw, t).value;
      var key := t.msgids[FirstWith(t.msgids, name).value].0;
      m.payload.Some? && Construct(ById(key), rev2, pbf, PayloadOnly(m.payload.value), t) == Ok(m.(revno := 0))
  {
    assert Construct(ByName(name), revno, pbf, kw, t) == Attributes(t, name, revno, pbf, kw);
    AttributesHasId(t, name, revno, pbf, kw);
    var k := FirstWith(t.msgids, name).value;
    var key := t.msgids[k].0;
    LookupTableId(t, k);
    var m := Attributes(t, name, revno, pbf, kw).value;
    AttributesFields(t, name, revno, pbf, kw);
    ConstructById(key, rev2, pbf, PayloadOnly(m.payload.value), t, name, 0);
    AttributesBuildParse(t, name, revno, 0, pbf, kw);
  }

  /**
   * serialize: the 2 sync bytes, the checksum, the id, the length and the
   * payload, 8 bytes more than the payload; the length field holds the
   * payload length and the checksum covers everything after it.
   */
  lemma SerializeLayout(m: Msg, t: Tables)
    requires LenChecksum(t, m.identity, m.payload) == Ok((m.length, m.crc))
    ensures Serialize(m, t).Ok?
    ensures var r := Serialize(m, t).value;
      var p := m.payload.GetOr([]);
      |r| == 8 + |p| && r[..2] == SBF_HDR && r[2..4] == m.crc && r[4..6] == MsgIdBytes(t.msgids, m.identity).value
      && r[6..8] == m.length && r[8..] == p && FromLE(r[6..8]) == |p| && r[2..4] == Crc2Bytes(r[4..])
  {
    LenChecksumSpec(t, m.identity, m.payload);
    var msgidb := MsgIdBytes(t.msgids, m.identity).value;
    var p := m.payload.GetOr([]);
    var r := SBF_HDR + m.crc + msgidb + m.length + p;
    assert r[4..] == msgidb + m.length + p;
  }
}
