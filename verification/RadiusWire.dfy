/** The octets of a RADIUS attribute area (section 5 of RFC 2865), and the parser that
    turns them into the descriptors the packet editor works with. */
module RadiusWire {
  import opened Common

  /** The length octet counts itself and the type, so a value has at most 253 octets. */
  type Value = v: Octets | |v| <= 253

  /** An attribute as the standard sees it. */
  datatype Attribute = Attribute(kind: byte, value: Value)

  /** An attribute as the parser records it: where its value starts, and how long it is. */
  datatype Descriptor = Descriptor(kind: byte, pos: nat, len: nat)

  datatype ParseResult = ParseResult(ok: bool, attrs: seq<Descriptor>)

  /** The parser gives up, silently, after this many attributes. */
  const MAX_PARSED: nat := 25

  /** unsigned int is 32 bits wide */
  const TWO_32: nat := 0x1_0000_0000

  /** std::uint16_t is 16 bits wide */
  const TWO_16: nat := 0x1_0000

  /** The size of the attribute buffer of a packet. */
  const AREA_SIZE: nat := 4096

  /* ---------- lists of attributes and their octets ---------- */

  function Wire(a: Attribute): Octets
  {
    [a.kind, |a.value| + 2] + a.value
  }

  function Serialize(attrs: seq<Attribute>): Octets
  {
    if attrs == [] then [] else Wire(attrs[0]) + Serialize(attrs[1..])
  }

  /** The strict reading of section 5 of RFC 2865: every length octet is at least 2 and stays
      inside the area, and the attributes tile the area. */
  function Decode(s: Octets): Option<seq<Attribute>>
    decreases |s|
  {
    if s == [] then Some([])
    else if |s| < 2 || s[1] < 2 || s[1] > |s| then None
    else
      match Decode(s[s[1]..])
      case None => None
      case Some(rest) => Some([Attribute(s[0], s[2..s[1]])] + rest)
  }

  /** Where the octets of attribute i start. */
  function Offset(attrs: seq<Attribute>, i: nat): nat
    requires i <= |attrs|
  {
    |Serialize(attrs[..i])|
  }

  /** The descriptors of a list of attributes laid out from `pos` on. */
  function Layout(attrs: seq<Attribute>, pos: nat): (ds: seq<Descriptor>)
    ensures |ds| == |attrs|
  {
    if attrs == [] then []
    else [Descriptor(attrs[0].kind, pos + 2, |attrs[0].value|)] + Layout(attrs[1..], pos + 2 + |attrs[0].value|)
  }

  /** What the parser keeps of a list. */
  function Visible(attrs: seq<Attribute>): seq<Attribute> {
    attrs[..Min(|attrs|, MAX_PARSED)]
  }

  /** The index of the first attribute of a kind, or the length of the list. */
  function FirstOf(attrs: seq<Attribute>, kind: byte): (i: nat)
    ensures i <= |attrs|
    ensures i < |attrs| ==> attrs[i].kind == kind
    ensures forall j | 0 <= j < i :: attrs[j].kind != kind
  {
    if attrs == [] || attrs[0].kind == kind then 0 else 1 + FirstOf(attrs[1..], kind)
  }

  /** The index of the last attribute of a kind. */
  function LastAmong(attrs: seq<Attribute>, kind: byte): (last: Option<nat>)
    ensures last == None ==> forall i | 0 <= i < |attrs| :: attrs[i].kind != kind
    ensures last.Some? ==> last.value < |attrs| && attrs[last.value].kind == kind
    ensures last.Some? ==> forall i | last.value < i < |attrs| :: attrs[i].kind != kind
  {
    if attrs == [] then None
    else if attrs[|attrs| - 1].kind == kind then Some(|attrs| - 1)
    else LastAmong(attrs[..|attrs| - 1], kind)
  }

  lemma {:induction false} SerializeConcat(a: seq<Attribute>, b: seq<Attribute>)
    ensures Serialize(a + b) == Serialize(a) + Serialize(b)
  {
    if a == [] {
      assert a + b == b;
    } else {
      assert (a + b)[1..] == a[1..] + b;
      SerializeConcat(a[1..], b);
    }
  }

  lemma {:induction false} DecodeSerialize(attrs: seq<Attribute>)
    ensures Decode(Serialize(attrs)) == Some(attrs)
  {
    if attrs != [] {
      var s := Serialize(attrs);
      assert s[s[1]..] == Serialize(attrs[1..]);
      DecodeSerialize(attrs[1..]);
      assert s[2..s[1]] == attrs[0].value;
      assert attrs == [attrs[0]] + attrs[1..];
    }
  }

  lemma {:induction false} SerializeDecode(s: Octets)
    ensures Decode(s).Some? ==> Serialize(Decode(s).value) == s
    decreases |s|
  {
    if s != [] && Decode(s).Some? {
      SerializeDecode(s[s[1]..]);
      var rest := Decode(s[s[1]..]).value;
      assert Decode(s).value[1..] == rest;
      assert Wire(Attribute(s[0], s[2..s[1]])) == s[..s[1]];
    }
  }

  /** Attribute i cuts the octets of a list into three parts. */
  lemma SerializeSplit(attrs: seq<Attribute>, i: nat)
    requires i < |attrs|
    ensures Serialize(attrs) == Serialize(attrs[..i]) + Wire(attrs[i]) + Serialize(attrs[i + 1..])
  {
    assert attrs == attrs[..i] + attrs[i..];
    SerializeConcat(attrs[..i], attrs[i..]);
  }

  lemma SerializeSpliced(before: seq<Attribute>, a: Attribute, after: seq<Attribute>)
    ensures Serialize(before + [a] + after) == Serialize(before) + Wire(a) + Serialize(after)
  {
    SerializeConcat(before + [a], after);
    SerializeConcat(before, [a]);
    assert [a][1..] == [];
  }

  /** The descriptor of attribute i of a laid-out list. */
  lemma {:induction false} LayoutAt(attrs: seq<Attribute>, pos: nat, i: nat)
    requires i < |attrs|
    ensures Layout(attrs, pos)[i] == Descriptor(attrs[i].kind, pos + Offset(attrs, i) + 2, |attrs[i].value|)
  {
    if i == 0 {
      assert attrs[..0] == [];
    } else {
      var before := attrs[..i];
      assert before[1..] == attrs[1..][..i - 1];
      LayoutAt(attrs[1..], pos + 2 + |attrs[0].value|, i - 1);
    }
  }

  lemma NextOffset(attrs: seq<Attribute>, i: nat)
    requires i < |attrs|
    ensures Offset(attrs, i + 1) == Offset(attrs, i) + 2 + |attrs[i].value|
  {
    assert attrs[..i + 1] == attrs[..i] + [attrs[i]];
    SerializeConcat(attrs[..i], [attrs[i]]);
  }

  lemma MiddleOf(before: Octets, a: Attribute, after: Octets)
    ensures (before + Wire(a) + after)[|before| + 2..|before| + 2 + |a.value|] == a.value
  {
  }

  /** Serialising, then reading back through the descriptors: same types and values, value
      ranges that tile the area apart from the two-octet headers. */
  lemma LayoutTiles(attrs: seq<Attribute>, i: nat)
    requires i < |attrs|
    ensures var d, s := Layout(attrs, 0)[i], Serialize(attrs);
            && d.pos + d.len <= |s|
            && d.kind == attrs[i].kind
            && s[d.pos..d.pos + d.len] == attrs[i].value
            && d.pos - 2 == (if i == 0 then 0 else Layout(attrs, 0)[i - 1].pos + Layout(attrs, 0)[i - 1].len)
            && (i == |attrs| - 1 ==> d.pos + d.len == |s|)
  {
    LayoutAt(attrs, 0, i);
    SerializeSplit(attrs, i);
    assert attrs[..0] == [] && Serialize([]) == [];
    assert i == |attrs| - 1 ==> attrs[i + 1..] == [];
    hide Serialize, Layout;
    MiddleOf(Serialize(attrs[..i]), attrs[i], Serialize(attrs[i + 1..]));
    if i > 0 {
      LayoutAt(attrs, 0, i - 1);
      NextOffset(attrs, i - 1);
    }
  }

  /* ---------- the parser ---------- */

  /** Unsigned arithmetic: the value of n in a type that holds 0 .. modulus. */
  function Wrap(n: int, modulus: nat): (r: nat)
    requires 0 <= n + modulus && n < 2 * modulus
    ensures r < modulus && (r == n || r == n + modulus || r == n - modulus)
  {
    if n < 0 then n + modulus else if n >= modulus then n - modulus else n
  }

  /** What the parser records for the attribute at `pos`. */
  function Recorded(buffer: Octets, offset: nat, pos: nat): Descriptor
    requires pos + 1 < |buffer| <= TWO_16 && offset <= AREA_SIZE
  {
    Descriptor(buffer[pos], Wrap(pos + 2 + offset, TWO_16), Wrap(buffer[pos + 1] as int - 2, TWO_32))
  }

  /** The parser at `pos`, with `x` attributes still allowed. The length of an attribute is
      unsigned: a length octet of 0 or 1 wraps, and so does the bound check. */
  function ParseFrom(buffer: Octets, size: nat, offset: nat, pos: nat, x: nat): ParseResult
    requires size < |buffer| <= TWO_16 && pos < TWO_16 && offset <= AREA_SIZE
    decreases x, |buffer|
  {
    if pos >= size || x == 0 then ParseResult(true, [])
    else
      var attr := Recorded(buffer, offset, pos);
      if Wrap(pos + attr.len, TWO_32) > size then ParseResult(false, [])
      else if buffer[pos + 1] == 0 then ParseResult(false, [attr])
      else
        var rest := ParseFrom(buffer, size, offset, Wrap(pos + buffer[pos + 1], TWO_16), x - 1);
        ParseResult(rest.ok, [attr] + rest.attrs)
  }

  method ParseRadius(offset: nat, buffer: Octets, size: nat) returns (ok: bool, attrs: seq<Descriptor>)
    requires size < |buffer| <= TWO_16 && offset <= AREA_SIZE
    ensures ParseResult(ok, attrs) == ParseFrom(buffer, size, offset, 0, MAX_PARSED)
  {
    hide Wrap;
    attrs := [];
    var pos: nat := 0;
    var x := MAX_PARSED;
    while pos < size && x > 0
      invariant pos < TWO_16
      invariant var rest := ParseFrom(buffer, size, offset, pos, x);
                ParseFrom(buffer, size, offset, 0, MAX_PARSED) == ParseResult(rest.ok, attrs + rest.attrs)
      decreases x
    {
      var attr := Descriptor(buffer[pos], Wrap(pos + 2 + offset, TWO_16), Wrap(buffer[pos + 1] as int - 2, TWO_32));
      assert attr == Recorded(buffer, offset, pos);
      hide Recorded;
      if Wrap(pos + attr.len, TWO_32) <= size {
        attrs := attrs + [attr];
      } else {
        return false, attrs;
      }
      if buffer[pos + 1] == 0 {
        return false, attrs;
      }
      pos := Wrap(pos + buffer[pos + 1], TWO_16);
      x := x - 1;
    }
    return true, attrs;
  }

  /** The descriptors of the first x attributes. */
  function LayoutFirst(attrs: seq<Attribute>, pos: nat, x: nat): seq<Descriptor> {
    if attrs == [] || x == 0 then []
    else
      [Descriptor(attrs[0].kind, pos + 2, |attrs[0].value|)]
      + LayoutFirst(attrs[1..], pos + 2 + |attrs[0].value|, x - 1)
  }

  lemma {:induction false} LayoutFirstIsLayout(attrs: seq<Attribute>, pos: nat, x: nat)
    ensures LayoutFirst(attrs, pos, x) == Layout(attrs[..Min(|attrs|, x)], pos)
  {
    var kept := attrs[..Min(|attrs|, x)];
    if attrs == [] || x == 0 {
      assert kept == [];
    } else {
      var rest := attrs[1..];
      LayoutFirstIsLayout(rest, pos + 2 + |attrs[0].value|, x - 1);
      assert kept[1..] == rest[..Min(|rest|, x - 1)];
    }
  }

  /** The headers of a list of attributes are in the buffer, from `pos` up to `size`. */
  ghost predicate HeadersAt(buffer: Octets, pos: nat, size: nat, attrs: seq<Attribute>)
    decreases |attrs|
  {
    if attrs == [] then pos == size
    else
      && pos + 2 + |attrs[0].value| <= size <= |buffer|
      && buffer[pos] == attrs[0].kind
      && buffer[pos + 1] == |attrs[0].value| + 2
      && HeadersAt(buffer, pos + 2 + |attrs[0].value|, size, attrs[1..])
  }

  lemma {:induction false} SerializedHeaders(buffer: Octets, pos: nat, size: nat, attrs: seq<Attribute>)
    requires pos + |Serialize(attrs)| == size <= |buffer|
    requires buffer[pos..size] == Serialize(attrs)
    ensures HeadersAt(buffer, pos, size, attrs)
    decreases |attrs|
  {
    if attrs != [] {
      var a, area := attrs[0], buffer[pos..size];
      assert buffer[pos] == area[0] && buffer[pos + 1] == area[1];
      assert buffer[pos + 2 + |a.value|..size] == area[2 + |a.value|..];
      SerializedHeaders(buffer, pos + 2 + |a.value|, size, attrs[1..]);
    }
  }

  /** The parser on well-formed octets: it accepts them and records the first x attributes. */
  lemma {:induction false} ParseWellFormed(buffer: Octets, size: nat, offset: nat, pos: nat, x: nat,
                                           attrs: seq<Attribute>)
    requires offset <= AREA_SIZE && pos <= size < |buffer| <= AREA_SIZE
    requires HeadersAt(buffer, pos, size, attrs)
    ensures ParseFrom(buffer, size, offset, pos, x) == ParseResult(true, LayoutFirst(attrs, pos + offset, x))
    decreases x
  {
    if attrs != [] && x > 0 {
      ParseWellFormed(buffer, size, offset, pos + 2 + |attrs[0].value|, x - 1, attrs[1..]);
    }
  }

  /** The parser on an area that holds exactly the octets of a list. */
  lemma ParseSerialized(buffer: Octets, attrs: seq<Attribute>, x: nat)
    requires |Serialize(attrs)| < |buffer| <= AREA_SIZE
    requires buffer[..|Serialize(attrs)|] == Serialize(attrs)
    ensures ParseFrom(buffer, |Serialize(attrs)|, 0, 0, x) == ParseResult(true, Layout(attrs[..Min(|attrs|, x)], 0))
  {
    assert buffer[0..|Serialize(attrs)|] == buffer[..|Serialize(attrs)|];
    SerializedHeaders(buffer, 0, |Serialize(attrs)|, attrs);
    ParseWellFormed(buffer, |Serialize(attrs)|, 0, 0, x, attrs);
    LayoutFirstIsLayout(attrs, 0, x);
  }

  /** What a packet with these octets records. */
  function Parse(buffer: Octets, size: nat): ParseResult
    requires size < |buffer| <= TWO_16
  {
    ParseFrom(buffer, size, 0, 0, MAX_PARSED)
  }

  /** Serialise then parse: the parser returns the first 25 attributes of the list, and the
      strict reading returns them all. */
  lemma ParseRoundTrip(buffer: Octets, attrs: seq<Attribute>)
    requires |Serialize(attrs)| < |buffer| <= AREA_SIZE
    requires buffer[..|Serialize(attrs)|] == Serialize(attrs)
    ensures Parse(buffer, |Serialize(attrs)|) == ParseResult(true, Layout(Visible(attrs), 0))
    ensures Decode(buffer[..|Serialize(attrs)|]) == Some(attrs)
  {
    ParseSerialized(buffer, attrs, MAX_PARSED);
    DecodeSerialize(attrs);
  }

  /* ---------- where the code and the standard part ---------- */

  /** Every recorded value ends inside the area. */
  predicate Inside(ds: seq<Descriptor>, size: nat) {
    ds == [] || (ds[0].pos + ds[0].len <= size && Inside(ds[1..], size))
  }

  /** Where the last of some recorded values ends, or where they would begin. */
  function End(ds: seq<Descriptor>, pos: nat): nat {
    if ds == [] then pos else End(ds[1..], ds[0].pos + ds[0].len)
  }

  /** What is behind the last recorded value can be read. */
  predicate ReadsBehind(buffer: Octets, size: nat, ds: seq<Descriptor>, pos: nat)
    requires size <= |buffer|
  {
    End(ds, pos) <= size && Decode(buffer[End(ds, pos)..size]).Some?
  }

  /** The bound check leaves out the two header octets, and a wrapped length slips through it, so an
      accepted area need not be well formed. It is exactly when every recorded value ends inside the
      area and, where the parser stopped at its limit, what comes behind the last can be read. */
  lemma {:induction false} AcceptedIsWellFormed(buffer: Octets, size: nat, pos: nat, x: nat)
    requires pos <= size < |buffer| <= AREA_SIZE
    requires ParseFrom(buffer, size, 0, pos, x).ok
    ensures var ds := ParseFrom(buffer, size, 0, pos, x).attrs;
      Decode(buffer[pos..size]).Some? <==> Inside(ds, size) && (|ds| == x ==> ReadsBehind(buffer, size, ds, pos))
    decreases x
  {
    if x == 0 || pos == size {
      AcceptedToTheEnd(buffer, size, pos, x);
    } else {
      var octet := buffer[pos + 1];
      OneParsed(buffer, size, pos, x);
      hide ParseFrom, Recorded, Wrap, Decode, ReadsBehind, Inside;
      if octet >= 2 && pos + octet <= size {
        AcceptedIsWellFormed(buffer, size, pos + octet, x - 1);
      }
      AcceptedStep(buffer, size, pos, x);
    }
  }

  lemma AcceptedToTheEnd(buffer: Octets, size: nat, pos: nat, x: nat)
    requires pos <= size < |buffer| <= AREA_SIZE && (x == 0 || pos == size)
    ensures var ds := ParseFrom(buffer, size, 0, pos, x).attrs;
      Decode(buffer[pos..size]).Some? <==> Inside(ds, size) && (|ds| == x ==> ReadsBehind(buffer, size, ds, pos))
  {
    assert ParseFrom(buffer, size, 0, pos, x).attrs == [];
    assert pos == size ==> buffer[pos..size] == [];
  }

  lemma AcceptedStep(buffer: Octets, size: nat, pos: nat, x: nat)
    requires pos < size < |buffer| <= AREA_SIZE && x > 0 && ParseFrom(buffer, size, 0, pos, x).ok
    requires var octet := buffer[pos + 1];
      octet >= 2 && pos + octet <= size ==>
        var rest := ParseFrom(buffer, size, 0, pos + octet, x - 1).attrs;
        Decode(buffer[pos + octet..size]).Some?
        <==> Inside(rest, size) && (|rest| == x - 1 ==> ReadsBehind(buffer, size, rest, pos + octet))
    ensures var ds := ParseFrom(buffer, size, 0, pos, x).attrs;
      Decode(buffer[pos..size]).Some? <==> Inside(ds, size) && (|ds| == x ==> ReadsBehind(buffer, size, ds, pos))
  {
    var area, ds := buffer[pos..size], ParseFrom(buffer, size, 0, pos, x).attrs;
    var octet := buffer[pos + 1];
    OneParsed(buffer, size, pos, x);
    DecodeStep(area);
    BehindTheRest(buffer, size, ds, pos);
    assert |area| >= 2 ==> area[1] == octet;
    hide ParseFrom, Decode, Recorded, Wrap, End, Inside, ReadsBehind;
    if octet >= 2 && pos + octet <= size {
      assert area[octet..] == buffer[pos + octet..size];
      assert Decode(area).Some? <==> Decode(buffer[pos + octet..size]).Some?;
      assert |ds| == |ds[1..]| + 1;
    } else {
      assert !Inside(ds, size);
      assert Decode(area).None?;
    }
  }

  lemma BehindTheRest(buffer: Octets, size: nat, ds: seq<Descriptor>, pos: nat)
    requires size <= |buffer| && ds != []
    ensures Inside(ds, size) <==> ds[0].pos + ds[0].len <= size && Inside(ds[1..], size)
    ensures ReadsBehind(buffer, size, ds, pos) <==> ReadsBehind(buffer, size, ds[1..], ds[0].pos + ds[0].len)
  {
  }

  lemma DecodeStep(s: Octets)
    ensures s != [] ==>
      (Decode(s).Some? <==> |s| >= 2 && 2 <= s[1] <= |s| && Decode(s[s[1]..]).Some?)
  {
  }

  /** What the parser does with one attribute of an accepted area. */
  lemma OneParsed(buffer: Octets, size: nat, pos: nat, x: nat)
    requires pos < size < |buffer| <= AREA_SIZE && x > 0
    requires ParseFrom(buffer, size, 0, pos, x).ok
    ensures var ds, octet := ParseFrom(buffer, size, 0, pos, x).attrs, buffer[pos + 1];
      && ds != [] && ds[0].pos == pos + 2
      && (ds[0].pos + ds[0].len <= size <==> octet >= 2 && pos + octet <= size)
      && (octet >= 2 ==> ds[0].len == octet - 2)
      && ParseFrom(buffer, size, 0, pos + octet, x - 1).ok
      && ds[1..] == ParseFrom(buffer, size, 0, pos + octet, x - 1).attrs
  {
  }

  /** The length that is recorded for a length octet of 0 or 1. */
  predicate Wrapped(d: Descriptor) {
    d.len == TWO_32 - 2 || d.len == TWO_32 - 1
  }

  /** Whatever the parser records, from whatever octets: a value that ends inside the area, or at most
      two octets behind it, or one with a wrapped length. */
  lemma {:induction false} RecordedBounds(buffer: Octets, size: nat, pos: nat, x: nat, i: nat)
    requires size < |buffer| <= AREA_SIZE && pos < TWO_16 && i < |ParseFrom(buffer, size, 0, pos, x).attrs|
    ensures var d := ParseFrom(buffer, size, 0, pos, x).attrs[i];
      2 <= d.pos <= size + 1 && (Wrapped(d) || (d.len <= 253 && d.pos + d.len <= size + 2))
    decreases x
  {
    if i > 0 {
      RecordedBounds(buffer, size, Wrap(pos + buffer[pos + 1], TWO_16), x - 1, i - 1);
    }
  }

  /** An area of three octets that claims an attribute of four is accepted. */
  lemma OvershootIsAccepted()
    ensures Parse([1, 4, 0, 0], 3) == ParseResult(true, [Descriptor(1, 2, 2)])
    ensures Decode([1, 4, 0, 0][..3]) == None
  {
    var buffer: Octets := [1, 4, 0, 0];
    assert buffer[..3] == [1, 4, 0];
    assert ParseFrom(buffer, 3, 0, 4, 24) == ParseResult(true, []);
  }

  /** A length octet of 1 behind the first attribute is accepted, and recorded as a length of 2^32 - 1:
      the position makes up for it in the bound check. */
  lemma LengthOneIsAccepted()
    ensures Parse([1, 2, 5, 1, 2, 2, 0], 5)
         == ParseResult(true, [Descriptor(1, 2, 0), Descriptor(5, 4, TWO_32 - 1), Descriptor(1, 5, 0)])
    ensures Decode([1, 2, 5, 1, 2, 2, 0][..5]) == None
  {
    var buffer: Octets := [1, 2, 5, 1, 2, 2, 0];
    assert buffer[..5] == [1, 2, 5, 1, 2];
    assert buffer[..5][2..] == [5, 1, 2];
    assert ParseFrom(buffer, 5, 0, 5, 22) == ParseResult(true, []);
    assert ParseFrom(buffer, 5, 0, 3, 23) == ParseResult(true, [Descriptor(1, 5, 0)]);
    assert ParseFrom(buffer, 5, 0, 2, 24) == ParseResult(true, [Descriptor(5, 4, TWO_32 - 1), Descriptor(1, 5, 0)]);
  }

  /** The octets the editor writes for a value: the length octet is one byte, so it wraps. */
  function Written(kind: byte, value: Octets): Octets {
    [kind, (|value| + 2) % 0x100] + value
  }

  lemma WrittenWell(before: seq<Attribute>, kind: byte, value: Value, after: seq<Attribute>)
    ensures Decode(Serialize(before) + Written(kind, value) + Serialize(after))
      == Some(before + [Attribute(kind, value)] + after)
  {
    hide Decode, Serialize;
    assert Written(kind, value) == Wire(Attribute(kind, value));
    SerializeSpliced(before, Attribute(kind, value), after);
    DecodeSerialize(before + [Attribute(kind, value)] + after);
  }

  /** Splicing the octets of a value into a list yields that attribute in that place if the value
      has at most 253 octets, and otherwise nothing that can be read. */
  lemma WrittenIsAttribute(before: seq<Attribute>, kind: byte, value: Octets, after: seq<Attribute>)
    requires |value| <= 255
    ensures Decode(Serialize(before) + Written(kind, value) + Serialize(after))
         == if |value| <= 253 then Some(before + [Attribute(kind, value)] + after) else None
  {
    hide Decode, Serialize;
    if |value| <= 253 {
      WrittenWell(before, kind, value, after);
    } else {
      var head, tail := Serialize(before), Serialize(after);
      var s := head + Written(kind, value) + tail;
      assert s[|head| + 1] == Written(kind, value)[1] == (|value| + 2) % 0x100;
      assert s[..|head|] == head;
      WrittenBadly(before, s, |head|);
    }
  }

  /** A length octet below 2 behind well-formed attributes spoils the whole area. */
  lemma {:induction false} WrittenBadly(before: seq<Attribute>, s: Octets, n: nat)
    requires n == |Serialize(before)| && n + 1 < |s| && s[..n] == Serialize(before)
    requires s[n + 1] < 2
    ensures Decode(s) == None
  {
    if before != [] {
      var w := Wire(before[0]);
      assert s[0] == s[..n][0] && s[1] == s[..n][1];
      assert s[|w|..][..n - |w|] == s[..n][|w|..] == Serialize(before[1..]);
      WrittenBadly(before[1..], s[|w|..], n - |w|);
    }
  }
}
