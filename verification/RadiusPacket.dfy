/** The in-place packet editor: octets moved around inside a fixed buffer must come out as
    operations on the list of attributes the octets stand for. */
module RadiusPacket {
  import opened Common
  import opened RadiusWire

  /** code, identifier, length, authenticator */
  const ATTRIBUTE_OFFSET: nat := 20

  /** sizeof(RawRadiusPacket) */
  const PACKET_SIZE: nat := ATTRIBUTE_OFFSET + AREA_SIZE

  type Digest = d: Octets | |d| == 16 witness [0, 0, 0, 0, 0, 0, 0, 0, 0, 0, 0, 0, 0, 0, 0, 0]

  const ZEROS: Digest := [0, 0, 0, 0, 0, 0, 0, 0, 0, 0, 0, 0, 0, 0, 0, 0]

  /** A packet by value. */
  datatype Image = Image(code: byte, identifier: byte, rawLength: nat, authenticator: Digest,
                         attributes: Octets, attrs: seq<Descriptor>, size: nat, valid: bool)

  ghost predicate ImageWellFormed(p: Image) {
    && |p.attributes| == AREA_SIZE && p.size < PACKET_SIZE && p.rawLength < TWO_16
    && Decode(ImageArea(p)).Some?
    && p.attrs == Layout(Visible(Decode(ImageArea(p)).value), 0)
  }

  ghost function ImageArea(p: Image): Octets
    requires |p.attributes| == AREA_SIZE && p.size < PACKET_SIZE
  {
    if p.size < ATTRIBUTE_OFFSET then [] else p.attributes[..p.size - ATTRIBUTE_OFFSET]
  }

  ghost function ImageContents(p: Image): seq<Attribute>
    requires ImageWellFormed(p)
  {
    Decode(ImageArea(p)).value
  }

  const ACCESS_REQUEST: byte := 1

  const MESSAGE_AUTHENTICATOR: byte := 80

  /** HMAC-MD5, uninterpreted: a key and a text give 16 octets. */
  type Mac = (Octets, Octets) -> Digest

  /** The fixed part of a packet. */
  function Header(code: byte, identifier: byte, length: nat, authenticator: Digest): (octets: Octets)
    requires length < TWO_16
    ensures |octets| == ATTRIBUTE_OFFSET
  {
    [code, identifier, length / 0x100, length % 0x100] + authenticator
  }

  /** The fixed part that octets are received over. */
  const FRESH_HEADER: Octets := [1, 0, 0, 0, 0, 0, 0, 0, 0, 0, 0, 0, 0, 0, 0, 0, 0, 0, 0, 0]

  /** Octets received over it. */
  function Padded(octets: Octets): (header: Octets)
    ensures |header| >= ATTRIBUTE_OFFSET && |octets| <= |header| && header[..|octets|] == octets
    ensures |octets| >= ATTRIBUTE_OFFSET ==> header == octets
    ensures |octets| < ATTRIBUTE_OFFSET ==> |header| == ATTRIBUTE_OFFSET
  {
    if |octets| < ATTRIBUTE_OFFSET then octets + FRESH_HEADER[|octets|..] else octets
  }

  /** The buffer of a packet that is shorter than its header, and as much behind it as the parser is told
      there is, where the size has wrapped. The parser reads the first two octets. */
  function Zeros(): (zeros: Octets)
    ensures |zeros| == TWO_16 && forall i | 0 <= i < TWO_16 :: zeros[i] == 0
  {
    seq(TWO_16, _ => 0)
  }

  lemma ZerosAreRejected(size: nat)
    requires 0 < size < TWO_16
    ensures ParseFrom(Zeros(), size, 0, 0, MAX_PARSED) == ParseResult(false, [])
  {
    hide Zeros;
  }

  lemma NothingIsEmpty()
    ensures Decode([]) == Some([]) && Layout(Visible([]), 0) == []
  {
  }

  /** A packet of some octets begins with its fixed part. */
  lemma HeaderOctets(octets: Octets)
    requires ATTRIBUTE_OFFSET <= |octets|
    ensures Header(octets[0], octets[1], octets[2] as int * 0x100 + octets[3], octets[4..20])
      == octets[..ATTRIBUTE_OFFSET]
  {
  }

  /* ---------- the list operations the editor must refine ---------- */

  /** Lookups see only what the parser kept. */
  predicate Has(attrs: seq<Attribute>, kind: byte) {
    FirstOf(Visible(attrs), kind) < |Visible(attrs)|
  }

  function Spot(attrs: seq<Attribute>, kind: byte): (i: nat)
    requires Has(attrs, kind)
    ensures i < |attrs| && attrs[i].kind == kind
  {
    FirstOf(Visible(attrs), kind)
  }

  function Replaced(attrs: seq<Attribute>, kind: byte, value: Value): seq<Attribute> {
    if Has(attrs, kind) then attrs[Spot(attrs, kind) := Attribute(kind, value)] else attrs
  }

  function Removed(attrs: seq<Attribute>, kind: byte): seq<Attribute> {
    if Has(attrs, kind) then attrs[..Spot(attrs, kind)] + attrs[Spot(attrs, kind) + 1..] else attrs
  }

  function Inserted(attrs: seq<Attribute>, location: byte, a: Attribute): seq<Attribute> {
    if !Has(attrs, location) then attrs
    else attrs[..Spot(attrs, location) + 1] + [a] + attrs[Spot(attrs, location) + 1..]
  }

  /** Four octets, most significant first. */
  function BigEndian(value: nat): (octets: Value)
    requires value < TWO_32
    ensures |octets| == 4
    ensures octets[0] as int * 0x100_0000 + octets[1] as int * 0x1_0000 + octets[2] as int * 0x100 + octets[3] as int
         == value
  {
    var high, low := value / 0x1_0000, value % 0x1_0000;
    [high / 0x100, high % 0x100, low / 0x100, low % 0x100]
  }

  /** Where the first attribute of a kind is, among the first 25 that the parser keeps. */
  lemma SpotIsFirst(attrs: seq<Attribute>, kind: byte)
    ensures Has(attrs, kind) <==> exists i | 0 <= i < |attrs| && i < 25 :: attrs[i].kind == kind
    ensures Has(attrs, kind) ==> Spot(attrs, kind) < 25
    ensures Has(attrs, kind) ==> forall i | 0 <= i < Spot(attrs, kind) :: attrs[i].kind != kind
  {
    assert forall i | 0 <= i < |Visible(attrs)| :: Visible(attrs)[i] == attrs[i];
    if i :| 0 <= i < |attrs| && i < 25 && attrs[i].kind == kind {
      assert Visible(attrs)[i].kind == kind;
    }
  }

  /** The three edits of a list, attribute by attribute: one is changed, or is gone, or comes in behind. */
  lemma ReplacedIsLocal(attrs: seq<Attribute>, kind: byte, value: Value)
    requires Has(attrs, kind)
    ensures var i, r := Spot(attrs, kind), Replaced(attrs, kind, value);
      && |r| == |attrs| && r[i] == Attribute(kind, value) && forall j | 0 <= j < |r| && j != i :: r[j] == attrs[j]
  {
  }

  lemma RemovedIsLocal(attrs: seq<Attribute>, kind: byte)
    requires Has(attrs, kind)
    ensures var i, r := Spot(attrs, kind), Removed(attrs, kind);
      && |r| == |attrs| - 1
      && forall j | 0 <= j < |r| :: r[j] == if j < i then attrs[j] else attrs[j + 1]
  {
    SplicedOut(attrs, Spot(attrs, kind));
    hide Has, Spot;
  }

  lemma InsertedAt(attrs: seq<Attribute>, location: byte, a: Attribute)
    ensures Inserted(attrs, location, a)
         == if Has(attrs, location) then attrs[..Spot(attrs, location) + 1] + [a] + attrs[Spot(attrs, location) + 1..]
            else attrs
  {
  }

  lemma SplicedOut<T>(s: seq<T>, i: nat)
    requires i < |s|
    ensures forall j | 0 <= j < |s| - 1 :: (s[..i] + s[i + 1..])[j] == if j < i then s[j] else s[j + 1]
  {
  }

  lemma InsertedIsLocal(attrs: seq<Attribute>, location: byte, a: Attribute)
    requires Has(attrs, location)
    ensures var i, r := Spot(attrs, location), Inserted(attrs, location, a);
      && |r| == |attrs| + 1 && r[i + 1] == a
      && (forall j | 0 <= j <= i :: r[j] == attrs[j]) && forall j | i < j < |attrs| :: r[j + 1] == attrs[j]
  {
    SplicedIn(attrs, Spot(attrs, location) + 1, a);
    hide Has, Spot;
  }

  lemma SplicedIn<T>(s: seq<T>, i: nat, x: T)
    requires i <= |s|
    ensures var r := s[..i] + [x] + s[i..];
      && |r| == |s| + 1 && r[i] == x && (forall j | 0 <= j < i :: r[j] == s[j])
      && forall j | i <= j < |s| :: r[j + 1] == s[j]
  {
  }

  /** Four octets that stand for a number, the first of them for the most. */
  predicate StandsFor(octets: Octets, number: nat) {
    && |octets| >= 4
    && octets[0] as int * 0x100_0000 + octets[1] as int * 0x1_0000 + octets[2] as int * 0x100 + octets[3] as int
      == number
  }

  /** A numeric replace writes over the first four octets of a value. */
  function Overwritten(value: Value, number: nat): Value
    requires |value| >= 4 && number < TWO_32
  {
    BigEndian(number) + value[4..]
  }

  function ReplacedNumber(attrs: seq<Attribute>, kind: byte, number: nat): seq<Attribute>
    requires number < TWO_32
    requires Has(attrs, kind) ==> |attrs[Spot(attrs, kind)].value| >= 4
  {
    if Has(attrs, kind) then Replaced(attrs, kind, Overwritten(attrs[Spot(attrs, kind)].value, number)) else attrs
  }

  function ReplacedOrAdded(attrs: seq<Attribute>, kind: byte, number: nat): seq<Attribute>
    requires number < TWO_32
    requires Has(attrs, kind) ==> |attrs[Spot(attrs, kind)].value| >= 4
  {
    if Has(attrs, kind) then ReplacedNumber(attrs, kind, number) else attrs + [Attribute(kind, BigEndian(number))]
  }

  /* ---------- moving octets ---------- */

  function Moved(s: Octets, dst: nat, src: nat, n: nat): Octets
    requires dst + n <= |s| && src + n <= |s|
  {
    s[..dst] + s[src..src + n] + s[dst + n..]
  }

  function Copied(s: Octets, dst: nat, octets: Octets): Octets
    requires dst + |octets| <= |s|
  {
    s[..dst] + octets + s[dst + |octets|..]
  }

  method MemMove(a: array<byte>, dst: nat, src: nat, n: nat)
    requires dst + n <= a.Length && src + n <= a.Length
    modifies a
    ensures a[..] == Moved(old(a[..]), dst, src, n)
  {
    forall i | 0 <= i < n {
      a[dst + i] := a[src + i];
    }
  }

  method Put(a: array<byte>, i: nat, octet: byte)
    requires i < a.Length
    modifies a
    ensures a[..] == old(a[..])[i := octet]
  {
    a[i] := octet;
  }

  method MemCopy(a: array<byte>, dst: nat, octets: Octets)
    requires dst + |octets| <= a.Length
    modifies a
    ensures a[..] == Copied(old(a[..]), dst, octets)
  {
    forall i | 0 <= i < |octets| {
      a[dst + i] := octets[i];
    }
  }

  class Packet {
    var code: byte
    var identifier: byte
    var rawLength: nat
    var authenticator: Digest
    const attributes: array<byte>
    var attrs: seq<Descriptor>
    var size: nat
    var valid: bool

    ghost predicate Sound()
      reads this
    {
      attributes.Length == AREA_SIZE && size < PACKET_SIZE && rawLength < TWO_16
    }

    /** The live part of the attribute buffer. */
    ghost function Area(): Octets
      requires Sound()
      reads this, attributes
    {
      if size < ATTRIBUTE_OFFSET then [] else attributes[..][..size - ATTRIBUTE_OFFSET]
    }

    /** The live area can be read, and the recorded descriptors are those of the attributes in it. */
    ghost predicate WellFormed()
      reads this, attributes
    {
      Sound() && Decode(Area()).Some? && attrs == Layout(Visible(Decode(Area()).value), 0)
    }

    ghost function Contents(): seq<Attribute>
      requires WellFormed()
      reads this, attributes
    {
      Decode(Area()).value
    }

    constructor ()
      ensures WellFormed() && fresh(attributes)
      ensures size == ATTRIBUTE_OFFSET && code == 0 && identifier == 0 && authenticator == ZEROS
      ensures Contents() == [] && Area() == []
    {
      code, identifier, rawLength, authenticator := 0, 0, 0, ZEROS;
      attributes := new byte[AREA_SIZE](_ => 0);
      attrs, size, valid := [], ATTRIBUTE_OFFSET, false;
    }

    /** Writes the header length and parses again. When the live area holds the octets of a
        list, the packet is well formed with that list as its contents. */
    method ReParse(ghost expected: seq<Attribute>)
      requires Sound() && ATTRIBUTE_OFFSET <= size
      modifies this`rawLength, this`valid, this`attrs
      ensures rawLength == size
      ensures ParseResult(valid, attrs) == Parse(attributes[..], size - ATTRIBUTE_OFFSET)
      ensures Area() == Serialize(expected) ==> valid && WellFormed() && Contents() == expected
    {
      rawLength := size;
      valid, attrs := ParseRadius(0, attributes[..], size - ATTRIBUTE_OFFSET);
      if Area() == Serialize(expected) {
        ParseRoundTrip(attributes[..], expected);
      }
    }

    /** Up to 253 octets make an attribute; with one or two more, the length octet wraps, and the area
        is spoiled. */
    method AppendAttribute(kind: byte, value: Octets)
      requires WellFormed() && |value| <= 255 && |Area()| + 2 + |value| < AREA_SIZE
      modifies this`size, this`rawLength, this`valid, this`attrs, attributes
      ensures Sound() && ATTRIBUTE_OFFSET <= size == rawLength && Area() == old(Area()) + Written(kind, value)
      ensures ParseResult(valid, attrs) == Parse(attributes[..], size - ATTRIBUTE_OFFSET)
      ensures |value| <= 253 ==> valid && WellFormed() && Contents() == old(Contents()) + [Attribute(kind, value)]
      ensures |value| > 253 ==> Decode(Area()) == None
    {
      hide Decode, Serialize, Written, Layout, Copied;
      ghost var contents, area := Contents(), Area();
      if size < ATTRIBUTE_OFFSET {
        size := ATTRIBUTE_OFFSET;
      }
      var pos := size - ATTRIBUTE_OFFSET;
      ghost var bytes := attributes[..];
      Put(attributes, pos, kind);
      Put(attributes, pos + 1, (|value| + 2) % 0x100);
      MemCopy(attributes, pos + 2, value);
      size := size + 2 + |value|;
      AppendOctets(bytes, pos, kind, value);
      AppendedOctets(area, contents, kind, value);
      ReParse(if |value| <= 253 then contents + [Attribute(kind, value)] else []);
    }

    /** The loop every lookup starts with. */
    method Lookup(kind: byte) returns (i: nat)
      requires WellFormed()
      ensures i <= |attrs|
      ensures i < |attrs| <==> Has(Contents(), kind)
      ensures i < |attrs| ==> i == Spot(Contents(), kind)
    {
      i := 0;
      while i < |attrs| && attrs[i].kind != kind
        invariant i <= |attrs|
        invariant forall j | 0 <= j < i :: attrs[j].kind != kind
      {
        i := i + 1;
      }
      LookupIsFirst(Contents(), kind, i);
    }

    /** The range of the octets a replacement of n octets moves: the count is taken from the
        packet size, header included, so it reaches past the live area. */
    ghost predicate ReplaceInRange(kind: byte, n: nat)
      requires WellFormed()
      reads this, attributes
    {
      Has(Contents(), kind) ==>
        var d := attrs[Spot(Contents(), kind)];
        && (n < d.len ==> d.pos + n + size <= AREA_SIZE)
        && (n > d.len ==> d.pos + n + size + (n - d.len) <= AREA_SIZE)
    }

    /** Writing over the first octets of a value. */
    method Overwrite(d: Descriptor, octets: Octets)
      requires Sound() && 2 <= d.pos && d.pos + d.len <= |Area()| && |octets| <= d.len <= 253
      requires Area()[d.pos - 1] == d.len + 2
      modifies attributes
      ensures Area() == Patched(old(Area()), d, octets + old(Area())[d.pos + |octets|..d.pos + d.len])
    {
      hide Copied, Patched;
      OverwriteOctets(attributes[..], |Area()|, d, octets);
      MemCopy(attributes, d.pos, octets);
    }

    /** Rewriting a value with a shorter one: the tail moves down. */
    method Shrink(d: Descriptor, value: Value)
      requires Sound() && 2 <= d.pos && d.pos + d.len <= |Area()| && |value| < d.len
      requires d.pos + |value| + size <= AREA_SIZE
      modifies this`size, attributes
      ensures Sound() && ATTRIBUTE_OFFSET <= size
      ensures Area() == Patched(old(Area()), d, value)
    {
      hide Moved, Copied, Patched;
      ghost var bytes, n := attributes[..], |Area()|;
      var shrink := d.len - |value|;
      MemCopy(attributes, d.pos, value);
      Put(attributes, d.pos - 1, |value| + 2);
      MemMove(attributes, d.pos + |value|, d.pos + d.len, size - shrink);
      ghost var after :=
        Moved(Copied(bytes, d.pos, value)[d.pos - 1 := |value| + 2], d.pos + |value|, d.pos + d.len, size - shrink);
      assert attributes[..] == after;
      ShrinkOctets(bytes, n, d, value, size - shrink);
      size := size - shrink;
      assert Area() == after[..n - shrink];
    }

    /** Rewriting a value with a longer one: the tail moves up first. */
    method Grow(d: Descriptor, value: Value)
      requires Sound() && 2 <= d.pos && d.pos + d.len <= |Area()| && d.len < |value|
      requires d.pos + |value| + size + (|value| - d.len) <= AREA_SIZE
      modifies this`size, attributes
      ensures Sound() && ATTRIBUTE_OFFSET <= size
      ensures Area() == Patched(old(Area()), d, value)
    {
      hide Moved, Copied, Patched;
      ghost var bytes, n := attributes[..], |Area()|;
      var augment := |value| - d.len;
      MemMove(attributes, d.pos + |value|, d.pos + d.len, size + augment);
      MemCopy(attributes, d.pos, value);
      Put(attributes, d.pos - 1, |value| + 2);
      ghost var after :=
        Copied(Moved(bytes, d.pos + |value|, d.pos + d.len, size + augment), d.pos, value)[d.pos - 1 := |value| + 2];
      assert attributes[..] == after;
      GrowOctets(bytes, n, d, value, size + augment);
      size := size + augment;
      assert Area() == after[..n + augment];
    }

    method ReplaceAttribute(kind: byte, value: Value)
      requires WellFormed() && ReplaceInRange(kind, |value|)
      modifies this`size, this`rawLength, this`valid, this`attrs, attributes
      ensures WellFormed()
      ensures Contents() == Replaced(old(Contents()), kind, value)
      ensures size != old(size) ==> rawLength == size
    {
      hide Decode, Serialize, Wire, Layout, Patched, FirstOf;
      ghost var contents := Contents();
      var i := Lookup(kind);
      if i < |attrs| {
        ghost var replaced := contents[i := Attribute(kind, value)];
        ReplacedOctets(Area(), contents, i, Attribute(kind, value));
        if attrs[i].len == |value| {
          assert value + Area()[attrs[i].pos + |value|..attrs[i].pos + |value|] == value;
          Overwrite(attrs[i], value);
          ReplacedInPlace(contents, i, Attribute(kind, value));
        } else if |value| < attrs[i].len {
          Shrink(attrs[i], value);
          ReParse(replaced);
        } else {
          Grow(attrs[i], value);
          ReParse(replaced);
        }
      }
    }
  
    /** A numeric replace writes four octets, whatever the width of the value: over the header of the
        next attribute, where the value has fewer. */
    method ReplaceNumber(kind: byte, number: nat)
      requires WellFormed() && number < TWO_32
      requires Has(Contents(), kind) ==>
        var i := Spot(Contents(), kind);
        |Contents()[i].value| >= 4 || attrs[i].pos + 4 <= AREA_SIZE
      modifies attributes
      ensures !Has(old(Contents()), kind) ==> attributes[..] == old(attributes[..])
      ensures Has(old(Contents()), kind) ==>
        var pos := attrs[Spot(old(Contents()), kind)].pos;
        pos + 4 <= AREA_SIZE && attributes[..] == Copied(old(attributes[..]), pos, BigEndian(number))
      ensures (Has(old(Contents()), kind) ==> |old(Contents())[Spot(old(Contents()), kind)].value| >= 4) ==>
        WellFormed() && Contents() == ReplacedNumber(old(Contents()), kind, number)
    {
      hide Decode, Layout, FirstOf, BigEndian, Copied, Overwritten, Visible;
      ghost var contents, bytes := Contents(), attributes[..];
      var i := Lookup(kind);
      if i < |attrs| {
        if |contents[i].value| >= 4 {
          NumberInPlace(bytes, |Area()|, contents, kind, number);
        }
        MemCopy(attributes, attrs[i].pos, BigEndian(number));
      }
    }

    method RemoveAttribute(kind: byte)
      requires WellFormed()
      requires Has(Contents(), kind) ==> attrs[Spot(Contents(), kind)].pos + size - 2 <= AREA_SIZE
      modifies this`size, this`rawLength, this`valid, this`attrs, attributes
      ensures WellFormed()
      ensures Contents() == Removed(old(Contents()), kind)
      ensures size != old(size) ==> rawLength == size
    {
      hide Decode, Serialize, Wire, Layout, Moved, Cut, FirstOf;
      ghost var contents := Contents();
      var i := Lookup(kind);
      if i < |attrs| {
        var d := attrs[i];
        ghost var bytes, n := attributes[..], |Area()|;
        RemovedOctets(Area(), contents, i);
        var shrink := d.len + 2;
        MemMove(attributes, d.pos - 2, d.pos + d.len, size - shrink);
        CutOctets(bytes, n, d, size - shrink);
        size := size - shrink;
        assert Area() == Moved(bytes, d.pos - 2, d.pos + d.len, size)[..n - shrink];
        ReParse(contents[..i] + contents[i + 1..]);
      }
    }

    /** Making room for an attribute and writing it there. */
    method Open(at: nat, kind: byte, value: Value)
      requires Sound() && ATTRIBUTE_OFFSET <= size && at <= |Area()| && size + 2 + |value| <= AREA_SIZE
      modifies this`size, attributes
      ensures Sound() && size == old(size) + 2 + |value|
      ensures Area() == old(Area())[..at] + Wire(Attribute(kind, value)) + old(Area())[at..]
    {
      hide Wire, Moved, Copied;
      ghost var bytes, n := attributes[..], |Area()|;
      var augment := |value|;
      MemMove(attributes, at + 2 + augment, at, size - at);
      Put(attributes, at, kind);
      Put(attributes, at + 1, augment + 2);
      MemCopy(attributes, at + 2, value);
      OpenOctets(bytes, n, at, kind, value, size - at);
      size := size + 2 + augment;
    }

    method AddAttribute(location: byte, kind: byte, value: Value)
      requires WellFormed() && size + 2 + |value| <= AREA_SIZE
      modifies this`size, this`rawLength, this`valid, this`attrs, attributes
      ensures WellFormed()
      ensures Contents() == Inserted(old(Contents()), location, Attribute(kind, value))
      ensures size != old(size) ==> rawLength == size
    {
      hide Decode, Serialize, Wire, Layout, FirstOf, Inserted, Visible;
      ghost var contents, area := Contents(), Area();
      ghost var inserted := Inserted(contents, location, Attribute(kind, value));
      var i := Lookup(location);
      InsertedAt(contents, location, Attribute(kind, value));
      if i < |attrs| {
        InsertedOctets(area, contents, i, Attribute(kind, value));
        Open(attrs[i].pos + attrs[i].len, kind, value);
        assert Area() == Serialize(inserted);
        ReParse(inserted);
      }
    }

    method AppendNumber(kind: byte, number: nat)
      requires WellFormed() && number < TWO_32 && |Area()| + 6 < AREA_SIZE
      modifies this`size, this`rawLength, this`valid, this`attrs, attributes
      ensures valid && WellFormed() && rawLength == size
      ensures Contents() == old(Contents()) + [Attribute(kind, BigEndian(number))]
      ensures |Area()| == old(|Area()|) + 6
    {
      AppendAttribute(kind, BigEndian(number));
    }

    method ReplaceOrAddNumber(kind: byte, number: nat)
      requires WellFormed() && number < TWO_32 && |Area()| + 6 < AREA_SIZE
      modifies this`size, this`rawLength, this`valid, this`attrs, attributes
      ensures Has(old(Contents()), kind) ==>
        var pos := old(attrs)[Spot(old(Contents()), kind)].pos;
        pos + 4 <= AREA_SIZE && attributes[..] == Copied(old(attributes[..]), pos, BigEndian(number))
      ensures (Has(old(Contents()), kind) ==> |old(Contents())[Spot(old(Contents()), kind)].value| >= 4) ==>
        && WellFormed() && Contents() == ReplacedOrAdded(old(Contents()), kind, number)
        && |Area()| <= old(|Area()|) + 6
    {
      hide Copied, BigEndian, Decode, Layout;
      ghost var contents := Contents();
      var i := Lookup(kind);
      if i < |attrs| {
        Located(Area(), contents, i);
        ReplaceNumber(kind, number);
      } else {
        AppendNumber(kind, number);
      }
    }

    /* ---------- packets by value ---------- */

    function Snapshot(): Image
      reads this, attributes
    {
      Image(code, identifier, rawLength, authenticator, attributes[..], attrs, size, valid)
    }

    /** The copy constructor. */
    constructor Copy(image: Image)
      ensures Snapshot() == image && fresh(attributes)
    {
      code, identifier, rawLength, authenticator := image.code, image.identifier, image.rawLength, image.authenticator;
      attributes := new byte[|image.attributes|](i requires 0 <= i < |image.attributes| => image.attributes[i]);
      attrs, size, valid := image.attrs, image.size, image.valid;
      new;
      assert attributes[..] == image.attributes;
    }

    /** A packet as received. Its header says how long it is; a packet that does not agree, or
        that the parser rejects, is marked invalid, and so is one shorter than its header. */
    constructor Received(octets: Octets)
      ensures Sound() && fresh(attributes)
      ensures |octets| >= PACKET_SIZE ==> !valid && size == 0 && WellFormed() && Contents() == []
      ensures ATTRIBUTE_OFFSET <= |octets| < PACKET_SIZE ==>
        && PacketOctets() == octets && size == |octets|
        && (valid <==> rawLength == size && Parse(attributes[..], size - ATTRIBUTE_OFFSET).ok)
        && attrs == if rawLength == size then Parse(attributes[..], size - ATTRIBUTE_OFFSET).attrs else []
      ensures |octets| < ATTRIBUTE_OFFSET ==>
        && !valid && size == |octets| && WellFormed() && Contents() == []
        && PacketOctets() == Padded(octets)
      ensures valid && Decode(octets[ATTRIBUTE_OFFSET..]).Some? ==>
        WellFormed() && Contents() == Decode(octets[ATTRIBUTE_OFFSET..]).value
    {
      var header := Padded(octets);
      var area := header[ATTRIBUTE_OFFSET..];
      if |octets| >= PACKET_SIZE {
        code, identifier, rawLength, authenticator := 1, 0, 0, ZEROS;
        attributes := new byte[AREA_SIZE](_ => 0);
        attrs, size, valid := [], 0, false;
      } else {
        code, identifier, rawLength, authenticator :=
          header[0], header[1], header[2] as int * 0x100 + header[3], header[4..20];
        attributes := new byte[AREA_SIZE](i => if 0 <= i < |area| then area[i] else 0);
        attrs, size, valid := [], |octets|, false;
      }
      new;
      NothingIsEmpty();
      hide Decode, Serialize, Layout, ParseFrom, Visible, Padded;
      if |octets| < PACKET_SIZE {
        HeaderOctets(header);
        hide Header;
        assert attributes[..][..|area|] == area;
        assert header[..ATTRIBUTE_OFFSET] + area == header;
        assert Area() == area;
        assert PacketOctets() == header;
        CheckLength();
      }
    }

    /** The end of that: the length is compared, and the attributes are parsed if it is right. The size
        of the area wraps where the packet is shorter than its header. */
    method CheckLength()
      requires Sound() && attrs == []
      modifies this`valid, this`attrs
      ensures ATTRIBUTE_OFFSET <= size ==>
        && (valid <==> rawLength == size && Parse(attributes[..], size - ATTRIBUTE_OFFSET).ok)
        && attrs == (if rawLength == size then Parse(attributes[..], size - ATTRIBUTE_OFFSET).attrs else [])
        && (valid && Decode(Area()).Some? ==> WellFormed() && Contents() == Decode(Area()).value)
      ensures size < ATTRIBUTE_OFFSET ==> !valid && attrs == []
    {
      hide Decode, Layout, ParseFrom, Visible;
      valid := size == rawLength;
      if valid {
        if size < ATTRIBUTE_OFFSET {
          ZerosAreRejected(size + (TWO_16 - ATTRIBUTE_OFFSET));
          valid, attrs := ParseRadius(0, Zeros(), size + (TWO_16 - ATTRIBUTE_OFFSET));
        } else {
          ParsedArea(attributes[..], Area());
          valid, attrs := ParseRadius(0, attributes[..], size - ATTRIBUTE_OFFSET);
        }
      }
    }

    /** The first `size` octets of the packet, the length in network order. */
    ghost function PacketOctets(): Octets
      requires Sound()
      reads this, attributes
    {
      Header(code, identifier, rawLength, authenticator) + Area()
    }

    /* ---------- authenticators ---------- */

    /** The 16 octets each Message-Authenticator is read and written at are in the buffer. */
    ghost predicate AuthenticatorsInBuffer()
      reads this
    {
      attributes.Length == AREA_SIZE && WindowsInside(attrs, AREA_SIZE)
    }

    /** Section 5.14 of RFC 2869: the digest of the header and of the list with all Message-Authenticators
        zero. It goes into every one of them, unless the last has it already. */
    method ComputeMessageAuthenticator(secret: Octets, hmac: Mac)
      requires Sound() && ATTRIBUTE_OFFSET <= size && AuthenticatorsInBuffer()
      modifies attributes
      ensures attributes[..] == Signed(code, Header(code, identifier, rawLength, authenticator), old(attributes[..]),
                                       attrs, size - ATTRIBUTE_OFFSET, secret, hmac)
      ensures code != 1 ==> attributes[..] == old(attributes[..])
      ensures old(WellFormed() && SixteenOctets(Contents())) && code == 1 ==>
        var contents := old(Contents());
        var digest := hmac(secret,
                           Header(1, identifier, rawLength, authenticator) + Serialize(Marked(contents, ZEROS)));
        && WellFormed()
        && Contents() == if Authenticator(contents) == digest then contents else Marked(contents, digest)
    {
      hide Decode, Serialize, Layout, Marked, Authenticator, Header, SixteenOctets, Visible, Stamped, LastAuthenticator;
      ghost var bytes, n := attributes[..], |Area()|;
      ghost var header := Header(code, identifier, rawLength, authenticator);
      ghost var readable := WellFormed() && SixteenOctets(Contents());
      ghost var contents := if readable then Contents() else [];
      assert readable ==> Decode(bytes[..n]) == Some(contents);
      assert code != ACCESS_REQUEST ==> Signed(code, header, bytes, attrs, n, secret, hmac) == bytes;
      Sign(secret, hmac);
      hide Signed, Signature;
      if readable {
        SignedContents(code, header, bytes, n, contents, secret, hmac);
        assert Area() == attributes[..][..n];
      }
    }

    method Sign(secret: Octets, hmac: Mac)
      requires Sound() && ATTRIBUTE_OFFSET <= size && AuthenticatorsInBuffer()
      modifies attributes
      ensures attributes[..] == Signed(code, Header(code, identifier, rawLength, authenticator), old(attributes[..]),
                                       attrs, size - ATTRIBUTE_OFFSET, secret, hmac)
    {
      hide LastAuthenticator, Stamped;
      if code == ACCESS_REQUEST {
        var oldAuthenticator, p := Blank(attributes[..], attrs);
        var newAuthenticator :=
          hmac(secret, Header(code, identifier, rawLength, authenticator) + p[..size - ATTRIBUTE_OFFSET]);
        if oldAuthenticator != newAuthenticator {
          Stamp(newAuthenticator);
        }
      }
    }

    /** The second loop of that: the digest is written over every Message-Authenticator. */
    method Stamp(digest: Digest)
      requires AuthenticatorsInBuffer()
      modifies attributes
      ensures attributes[..] == Stamped(old(attributes[..]), attrs, digest)
    {
      ghost var bytes := attributes[..];
      var i := 0;
      while i < |attrs|
        invariant i <= |attrs| && WindowsInside(attrs[i..], AREA_SIZE)
        invariant Stamped(attributes[..], attrs[i..], digest) == Stamped(bytes, attrs, digest)
      {
        assert attrs[i..][1..] == attrs[i + 1..];
        if attrs[i].kind == MESSAGE_AUTHENTICATOR {
          MemCopy(attributes, attrs[i].pos, digest);
        }
        i := i + 1;
      }
    }

    method VerifyMessageAuthenticator(secret: Octets, hmac: Mac) returns (ok: bool)
      requires Sound() && ATTRIBUTE_OFFSET <= size && AuthenticatorsInBuffer()
      ensures ok == Verifies(code, Header(code, identifier, rawLength, authenticator), attributes[..],
                             attrs, size - ATTRIBUTE_OFFSET, secret, hmac)
      ensures code != 1 ==> ok
      ensures WellFormed() && SixteenOctets(Contents()) && code == 1 ==>
        var contents := Contents();
        (ok <==> Authenticator(contents)
                 == hmac(secret, Header(1, identifier, rawLength, authenticator) + Serialize(Marked(contents, ZEROS))))
    {
      ghost var header := Header(code, identifier, rawLength, authenticator);
      if WellFormed() && SixteenOctets(Contents()) {
        SignedList(attributes[..], |Area()|, Contents(), header, secret, hmac);
      }
      hide Decode, Serialize, Layout, Marked, Authenticator, Header, Stamped, LastAuthenticator, SixteenOctets, Visible;
      if code == ACCESS_REQUEST {
        var oldAuthenticator, p := Blank(attributes[..], attrs);
        var newAuthenticator :=
          hmac(secret, Header(code, identifier, rawLength, authenticator) + p[..size - ATTRIBUTE_OFFSET]);
        return oldAuthenticator == newAuthenticator;
      }
      return true;
    }

    /** Section 3 of RFC 2866: the digest of the packet with a zeroed authenticator, followed by
        the secret. */
    method RecomputeAuthenticator(secret: Octets, md5: Octets -> Digest)
      requires Sound() && ATTRIBUTE_OFFSET <= size
      modifies this`authenticator, this`rawLength
      ensures Sound() && rawLength == size
      ensures authenticator == md5(Header(code, identifier, size, ZEROS) + Area() + secret)
    {
      authenticator := ZEROS;
      rawLength := size;
      authenticator :=
        md5(Header(code, identifier, rawLength, authenticator) + attributes[..size - ATTRIBUTE_OFFSET] + secret);
    }
  }

  function Cut(area: Octets, d: Descriptor): Octets
    requires 2 <= d.pos && d.pos + d.len <= |area|
  {
    area[..d.pos - 2] + area[d.pos + d.len..]
  }

  lemma CutOctets(s: Octets, n: nat, d: Descriptor, count: nat)
    requires 2 <= d.pos && d.pos + d.len <= n <= |s|
    requires n - d.pos - d.len <= count && d.pos + d.len + count <= |s|
    ensures Moved(s, d.pos - 2, d.pos + d.len, count)[..n - d.len - 2] == Cut(s[..n], d)
  {
  }

  lemma OpenOctets(s: Octets, n: nat, at: nat, kind: byte, value: Value, count: nat)
    requires at <= n <= |s| && n - at <= count && at + 2 + |value| + count <= |s|
    ensures Copied(Moved(s, at + 2 + |value|, at, count)[at := kind][at + 1 := |value| + 2], at + 2,
                   value)[..n + 2 + |value|]
         == s[..n][..at] + Wire(Attribute(kind, value)) + s[..n][at..]
  {
    var moved := Moved(s, at + 2 + |value|, at, count);
    var after := Copied(moved[at := kind][at + 1 := |value| + 2], at + 2, value)[..n + 2 + |value|];
    var spread := s[..n][..at] + Wire(Attribute(kind, value)) + s[..n][at..];
    assert |after| == |spread|;
    forall k | 0 <= k < |after|
      ensures after[k] == spread[k]
    {
      var wire := Wire(Attribute(kind, value));
      if k >= at + 2 + |value| {
        assert after[k] == moved[k] == s[k - 2 - |value|];
        assert spread[k] == s[..n][at..][k - at - 2 - |value|];
      } else if k >= at {
        assert spread[k] == wire[k - at];
        assert k >= at + 2 ==> after[k] == value[k - at - 2] == wire[k - at];
      } else {
        assert after[k] == moved[k] == s[k];
        assert spread[k] == s[..n][..at][k];
      }
    }
  }

  lemma ValueAt(before: Octets, a: Attribute, after: Octets, skip: nat)
    requires skip <= |a.value|
    ensures var area, pos := before + Wire(a) + after, |before| + 2;
            area[pos + skip..pos + |a.value|] == a.value[skip..]
  {
  }

  lemma RemovedOctets(area: Octets, contents: seq<Attribute>, i: nat)
    requires Decode(area) == Some(contents) && i < |Visible(contents)|
    ensures var d := Layout(Visible(contents), 0)[i];
      && 2 <= d.pos && d.pos + d.len <= |area|
      && Cut(area, d) == Serialize(contents[..i] + contents[i + 1..])
  {
    Located(area, contents, i);
    SerializeConcat(contents[..i], contents[i + 1..]);
    CutPieces(Serialize(contents[..i]), contents[i], Serialize(contents[i + 1..]));
  }

  lemma CutPieces(before: Octets, a: Attribute, after: Octets)
    ensures Cut(before + Wire(a) + after, Descriptor(a.kind, |before| + 2, |a.value|)) == before + after
  {
  }

  lemma InsertedOctets(area: Octets, contents: seq<Attribute>, i: nat, a: Attribute)
    requires Decode(area) == Some(contents) && i < |Visible(contents)|
    ensures var d := Layout(Visible(contents), 0)[i];
      && 2 <= d.pos && d.pos + d.len <= |area|
      && area[..d.pos + d.len] + Wire(a) + area[d.pos + d.len..]
        == Serialize(contents[..i + 1] + [a] + contents[i + 1..])
  {
    hide Decode, Layout, Serialize;
    Located(area, contents, i);
    SerializeSpliced(contents[..i + 1], a, contents[i + 1..]);
    SerializeUpTo(contents, i);
    EndPieces(Serialize(contents[..i]), contents[i], Serialize(contents[i + 1..]));
  }

  lemma SerializeUpTo(contents: seq<Attribute>, i: nat)
    requires i < |contents|
    ensures Serialize(contents[..i + 1]) == Serialize(contents[..i]) + Wire(contents[i])
  {
    SerializeSpliced(contents[..i], contents[i], []);
    assert contents[..i + 1] == contents[..i] + [contents[i]] + [];
  }

  lemma EndPieces(before: Octets, a: Attribute, after: Octets)
    ensures var area, at := before + Wire(a) + after, |before| + 2 + |a.value|;
            area[..at] == before + Wire(a) && area[at..] == after
  {
  }

  /** The octets of an area in which the value at `d` has been replaced. */
  function Patched(area: Octets, d: Descriptor, value: Value): Octets
    requires 2 <= d.pos && d.pos + d.len <= |area|
  {
    area[..d.pos - 1] + ([|value| + 2] + value) + area[d.pos + d.len..]
  }

  lemma AppendOctets(s: Octets, n: nat, kind: byte, value: Octets)
    requires n + 2 + |value| <= |s|
    ensures Copied(s[n := kind][n + 1 := (|value| + 2) % 0x100], n + 2, value)[..n + 2 + |value|]
         == s[..n] + Written(kind, value)
    ensures |Written(kind, value)| == 2 + |value|
    ensures |value| <= 253 ==> Written(kind, value) == Wire(Attribute(kind, value))
  {
  }

  lemma OverwriteOctets(s: Octets, n: nat, d: Descriptor, octets: Octets)
    requires 2 <= d.pos && d.pos + d.len <= n <= |s| && |octets| <= d.len <= 253 && s[d.pos - 1] == d.len + 2
    ensures Copied(s, d.pos, octets)[..n]
         == Patched(s[..n], d, octets + s[..n][d.pos + |octets|..d.pos + d.len])
  {
  }

  /** The tail is moved with a count that reaches past the live area; nothing of that shows. */
  lemma ShrinkOctets(s: Octets, n: nat, d: Descriptor, value: Value, count: nat)
    requires 2 <= d.pos && d.pos + d.len <= n <= |s| && |value| < d.len
    requires n - d.pos - d.len <= count && d.pos + d.len + count <= |s|
    ensures var copied := Copied(s, d.pos, value)[d.pos - 1 := |value| + 2];
            Moved(copied, d.pos + |value|, d.pos + d.len, count)[..n - d.len + |value|] == Patched(s[..n], d, value)
  {
  }

  lemma GrowOctets(s: Octets, n: nat, d: Descriptor, value: Value, count: nat)
    requires 2 <= d.pos && d.pos + d.len <= n && d.len < |value|
    requires n - d.pos - d.len <= count && d.pos + |value| + count <= |s|
    ensures var moved := Moved(s, d.pos + |value|, d.pos + d.len, count);
            Copied(moved, d.pos, value)[d.pos - 1 := |value| + 2][..n - d.len + |value|] == Patched(s[..n], d, value)
  {
    var moved := Moved(s, d.pos + |value|, d.pos + d.len, count);
    var after, patched :=
      Copied(moved, d.pos, value)[d.pos - 1 := |value| + 2][..n - d.len + |value|], Patched(s[..n], d, value);
    assert |after| == |patched|;
    forall k | 0 <= k < |after|
      ensures after[k] == patched[k]
    {
      if k >= d.pos + |value| {
        assert Copied(moved, d.pos, value)[k] == moved[k] == s[k - |value| + d.len];
      }
    }
  }

  lemma ReplacedOctets(area: Octets, contents: seq<Attribute>, i: nat, a: Attribute)
    requires Decode(area) == Some(contents) && i < |Visible(contents)|
    requires a.kind == contents[i].kind
    ensures var d := Layout(Visible(contents), 0)[i];
      && 2 <= d.pos && d.pos + d.len <= |area| && area[d.pos - 1] == d.len + 2 && d.len == |contents[i].value|
      && Patched(area, d, a.value) == Serialize(contents[i := a])
  {
    var before, after := Serialize(contents[..i]), Serialize(contents[i + 1..]);
    Located(area, contents, i);
    SerializeSpliced(contents[..i], a, contents[i + 1..]);
    UpdateIsSplice(contents, i, a);
    PatchedPieces(before, contents[i], after, a.value);
  }

  lemma UpdateIsSplice<T>(s: seq<T>, i: nat, x: T)
    requires i < |s|
    ensures s[i := x] == s[..i] + [x] + s[i + 1..]
  {
  }

  lemma PatchedPieces(before: Octets, a: Attribute, after: Octets, value: Value)
    ensures Patched(before + Wire(a) + after, Descriptor(a.kind, |before| + 2, |a.value|), value)
         == before + Wire(Attribute(a.kind, value)) + after
  {
  }

  lemma ReplacedInPlace(contents: seq<Attribute>, i: nat, a: Attribute)
    requires i < |Visible(contents)| && a.kind == contents[i].kind && |a.value| == |contents[i].value|
    ensures Decode(Serialize(contents[i := a])) == Some(contents[i := a])
    ensures Layout(Visible(contents[i := a]), 0) == Layout(Visible(contents), 0)
  {
    DecodeSerialize(contents[i := a]);
    assert Visible(contents[i := a]) == Visible(contents)[i := a];
    SameLayout(Visible(contents), 0, i, a);
  }

  lemma {:induction false} SameLayout(attrs: seq<Attribute>, pos: nat, i: nat, a: Attribute)
    requires i < |attrs| && a.kind == attrs[i].kind && |a.value| == |attrs[i].value|
    ensures Layout(attrs[i := a], pos) == Layout(attrs, pos)
  {
    if i == 0 {
      assert attrs[0 := a][1..] == attrs[1..];
    } else {
      assert attrs[i := a][1..] == attrs[1..][i - 1 := a];
      SameLayout(attrs[1..], pos + 2 + |attrs[0].value|, i - 1, a);
    }
  }

  lemma AppendedOctets(area: Octets, contents: seq<Attribute>, kind: byte, value: Octets)
    requires Decode(area) == Some(contents) && |value| <= 255
    ensures |value| <= 253 ==> area + Written(kind, value) == Serialize(contents + [Attribute(kind, value)])
    ensures |value| > 253 ==> Decode(area + Written(kind, value)) == None
  {
    SerializeDecode(area);
    WrittenIsAttribute(contents, kind, value, []);
    assert area + Written(kind, value) + Serialize([]) == area + Written(kind, value);
    if |value| <= 253 {
      SerializeDecode(area + Written(kind, value));
      assert contents + [Attribute(kind, value)] + [] == contents + [Attribute(kind, value)];
    }
  }

  /** What the parser makes of a buffer that begins with a well-formed area. */
  lemma ParsedArea(bytes: Octets, area: Octets)
    requires |area| < |bytes| <= AREA_SIZE && bytes[..|area|] == area
    ensures Decode(area).Some? ==> Parse(bytes, |area|) == ParseResult(true, Layout(Visible(Decode(area).value), 0))
  {
    if Decode(area).Some? {
      SerializeDecode(area);
      ParseRoundTrip(bytes, Decode(area).value);
    }
  }

  lemma LookupIsFirst(contents: seq<Attribute>, kind: byte, i: nat)
    requires i <= |Visible(contents)|
    requires forall j | 0 <= j < i :: Layout(Visible(contents), 0)[j].kind != kind
    requires i < |Visible(contents)| ==> Layout(Visible(contents), 0)[i].kind == kind
    ensures i == FirstOf(Visible(contents), kind)
  {
    var seen := Visible(contents);
    forall j | 0 <= j < |seen|
      ensures Layout(seen, 0)[j].kind == seen[j].kind
    {
      LayoutAt(seen, 0, j);
    }
  }

  /** A status of one octet, and a timestamp: writing 2 over the status makes the next length octet 0. */
  lemma ShortNumberSpoils()
    ensures var contents := [Attribute(40, [1]), Attribute(55, [0, 0, 0, 9])];
      && Serialize(contents) == [40, 3, 1, 55, 6, 0, 0, 0, 9]
      && Layout(contents, 0)[0].pos == 2
      && Decode(Copied(Serialize(contents), 2, BigEndian(2))) == None
  {
    var contents := [Attribute(40, [1]), Attribute(55, [0, 0, 0, 9])];
    assert contents[1..] == [contents[1]] && contents[1..][1..] == [] && Serialize([]) == [];
    assert Wire(contents[0]) == [40, 3, 1] && Wire(contents[1]) == [55, 6, 0, 0, 0, 9];
    var s := Copied(Serialize(contents), 2, BigEndian(2));
    assert s == [40, 3, 0, 0, 0, 2, 0, 0, 9];
    assert s[3..] == [0, 0, 2, 0, 0, 9];
  }

  /** Four octets written over the first of a value that has as many. */
  lemma NumberInPlace(bytes: Octets, n: nat, contents: seq<Attribute>, kind: byte, number: nat)
    requires n <= |bytes| && Decode(bytes[..n]) == Some(contents) && number < TWO_32
    requires Has(contents, kind) && |contents[Spot(contents, kind)].value| >= 4
    ensures var d, after := Layout(Visible(contents), 0)[Spot(contents, kind)], ReplacedNumber(contents, kind, number);
      && d.pos + 4 <= n
      && Decode(Copied(bytes, d.pos, BigEndian(number))[..n]) == Some(after)
      && Layout(Visible(after), 0) == Layout(Visible(contents), 0)
  {
    hide Decode, Serialize, Layout, Patched, FirstOf, BigEndian, Copied;
    var i := Spot(contents, kind);
    var a, d := Attribute(kind, Overwritten(contents[i].value, number)), Layout(Visible(contents), 0)[i];
    Located(bytes[..n], contents, i);
    ReplacedOctets(bytes[..n], contents, i, a);
    ValueAt(Serialize(contents[..i]), contents[i], Serialize(contents[i + 1..]), 4);
    OverwriteOctets(bytes, n, d, BigEndian(number));
    ReplacedInPlace(contents, i, a);
  }

  /** Where attribute i sits in the live area. */
  lemma Located(area: Octets, contents: seq<Attribute>, i: nat)
    requires Decode(area) == Some(contents) && i < |Visible(contents)|
    ensures Layout(Visible(contents), 0)[i]
         == Descriptor(contents[i].kind, |Serialize(contents[..i])| + 2, |contents[i].value|)
    ensures area == Serialize(contents[..i]) + Wire(contents[i]) + Serialize(contents[i + 1..])
  {
    SerializeDecode(area);
    LayoutAt(Visible(contents), 0, i);
    assert Visible(contents)[..i] == contents[..i];
    SerializeSplit(contents, i);
  }

  /* ---------- Message-Authenticator (section 5.14 of RFC 2869) ---------- */

  predicate WindowsInside(ds: seq<Descriptor>, n: nat) {
    ds == [] || ((ds[0].kind == MESSAGE_AUTHENTICATOR ==> ds[0].pos + 16 <= n) && WindowsInside(ds[1..], n))
  }

  /** All Message-Authenticators written over, in order. */
  function Stamped(s: Octets, ds: seq<Descriptor>, digest: Digest): (r: Octets)
    requires WindowsInside(ds, |s|)
    ensures |r| == |s|
    decreases |ds|
  {
    if ds == [] then s
    else Stamped(if ds[0].kind == MESSAGE_AUTHENTICATOR then Copied(s, ds[0].pos, digest) else s, ds[1..], digest)
  }

  /** The last Message-Authenticator, or what was found before. */
  function LastAuthenticator(s: Octets, ds: seq<Descriptor>, found: Digest): Digest
    requires WindowsInside(ds, |s|)
    decreases |ds|
  {
    if ds == [] then found
    else LastAuthenticator(s, ds[1..],
                           if ds[0].kind == MESSAGE_AUTHENTICATOR then s[ds[0].pos..ds[0].pos + 16] else found)
  }

  /** The digest of a packet with its Message-Authenticators zeroed. */
  function Signature(header: Octets, s: Octets, ds: seq<Descriptor>, n: nat, secret: Octets, hmac: Mac): Digest
    requires WindowsInside(ds, |s|) && n <= |s|
  {
    hmac(secret, header + Stamped(s, ds, ZEROS)[..n])
  }

  function Signed(code: byte, header: Octets, s: Octets, ds: seq<Descriptor>, n: nat, secret: Octets,
                  hmac: Mac): (r: Octets)
    requires WindowsInside(ds, |s|) && n <= |s|
    ensures |r| == |s|
  {
    if code == ACCESS_REQUEST && LastAuthenticator(s, ds, ZEROS) != Signature(header, s, ds, n, secret, hmac)
    then Stamped(s, ds, Signature(header, s, ds, n, secret, hmac))
    else s
  }

  predicate Verifies(code: byte, header: Octets, s: Octets, ds: seq<Descriptor>, n: nat, secret: Octets, hmac: Mac)
    requires WindowsInside(ds, |s|) && n <= |s|
  {
    code == ACCESS_REQUEST ==> LastAuthenticator(s, ds, ZEROS) == Signature(header, s, ds, n, secret, hmac)
  }

  /** One turn of that loop. */
  lemma BlankStep(s: Octets, p: Octets, ds: seq<Descriptor>, found: Digest)
    requires ds != [] && WindowsInside(ds, |s|) && |p| == |s|
    ensures WindowsInside(ds[1..], |s|)
    ensures var hit := ds[0].kind == MESSAGE_AUTHENTICATOR;
      && Stamped(p, ds, ZEROS) == Stamped(if hit then Copied(p, ds[0].pos, ZEROS) else p, ds[1..], ZEROS)
      && LastAuthenticator(s, ds, found)
        == LastAuthenticator(s, ds[1..], if hit then s[ds[0].pos..ds[0].pos + 16] else found)
  {
  }

  /** The first loop of both computations, on a copy of the packet. */
  method Blank(s: Octets, ds: seq<Descriptor>) returns (oldAuthenticator: Digest, p: Octets)
    requires WindowsInside(ds, |s|)
    ensures oldAuthenticator == LastAuthenticator(s, ds, ZEROS)
    ensures p == Stamped(s, ds, ZEROS)
  {
    oldAuthenticator, p := ZEROS, s;
    var i := 0;
    while i < |ds|
      invariant i <= |ds| && |p| == |s| && WindowsInside(ds[i..], |s|)
      invariant LastAuthenticator(s, ds[i..], oldAuthenticator) == LastAuthenticator(s, ds, ZEROS)
      invariant Stamped(p, ds[i..], ZEROS) == Stamped(s, ds, ZEROS)
    {
      BlankStep(s, p, ds[i..], oldAuthenticator);
      assert ds[i..][1..] == ds[i + 1..];
      if ds[i].kind == MESSAGE_AUTHENTICATOR {
        oldAuthenticator := s[ds[i].pos..ds[i].pos + 16];
        p := Copied(p, ds[i].pos, ZEROS);
      }
      i := i + 1;
    }
  }

  ghost predicate InWindow(ds: seq<Descriptor>, k: nat) {
    exists d | d in ds :: d.kind == MESSAGE_AUTHENTICATOR && d.pos <= k < d.pos + 16
  }

  /** Nothing outside the 16 octets of a Message-Authenticator moves. */
  lemma {:induction false} StampedElsewhere(s: Octets, ds: seq<Descriptor>, digest: Digest, k: nat)
    requires WindowsInside(ds, |s|) && k < |s| && !InWindow(ds, k)
    ensures Stamped(s, ds, digest)[k] == s[k]
    decreases |ds|
  {
    if ds != [] {
      var next := if ds[0].kind == MESSAGE_AUTHENTICATOR then Copied(s, ds[0].pos, digest) else s;
      assert !InWindow(ds[1..], k) && next[k] == s[k];
      StampedElsewhere(next, ds[1..], digest, k);
    }
  }

  /** Stamping forgets what was inside the windows. */
  lemma {:induction false} StampedSame(s: Octets, t: Octets, ds: seq<Descriptor>, digest: Digest)
    requires |s| == |t| && WindowsInside(ds, |s|)
    requires forall k | 0 <= k < |s| && !InWindow(ds, k) :: s[k] == t[k]
    ensures Stamped(s, ds, digest) == Stamped(t, ds, digest)
    decreases |ds|
  {
    if ds == [] {
      assert forall k :: !InWindow(ds, k);
      assert s == t;
    } else {
      var s', t' := s, t;
      if ds[0].kind == MESSAGE_AUTHENTICATOR {
        s', t' := Copied(s, ds[0].pos, digest), Copied(t, ds[0].pos, digest);
      }
      forall k | 0 <= k < |s| && !InWindow(ds[1..], k)
        ensures s'[k] == t'[k]
      {
        assert InWindow(ds, k) ==> ds[0].kind == MESSAGE_AUTHENTICATOR && ds[0].pos <= k < ds[0].pos + 16;
      }
      StampedSame(s', t', ds[1..], digest);
    }
  }

  predicate HasAuthenticator(ds: seq<Descriptor>) {
    ds != [] && (ds[0].kind == MESSAGE_AUTHENTICATOR || HasAuthenticator(ds[1..]))
  }

  lemma {:induction false} LastOfStamped(s: Octets, ds: seq<Descriptor>, digest: Digest, found: Digest)
    requires WindowsInside(ds, |s|)
    ensures LastAuthenticator(Stamped(s, ds, digest), ds, found) == if HasAuthenticator(ds) then digest else found
    ensures !HasAuthenticator(ds) ==> Stamped(s, ds, digest) == s
    decreases |ds|
  {
    if ds != [] {
      var hit := ds[0].kind == MESSAGE_AUTHENTICATOR;
      var next := if hit then Copied(s, ds[0].pos, digest) else s;
      var first := if hit then Stamped(s, ds, digest)[ds[0].pos..ds[0].pos + 16] else found;
      LastOfStamped(next, ds[1..], digest, first);
    }
  }

  /** Compute, then verify with the same secret: it succeeds exactly when the packet is not an
      Access-Request, or the parser found a Message-Authenticator, or the digest happens to be
      all zeros. No width of the attribute matters. */
  lemma ComputeThenVerify(code: byte, header: Octets, s: Octets, ds: seq<Descriptor>, n: nat, secret: Octets, hmac: Mac)
    requires WindowsInside(ds, |s|) && n <= |s|
    ensures Verifies(code, header, Signed(code, header, s, ds, n, secret, hmac), ds, n, secret, hmac)
       <==> code != ACCESS_REQUEST || HasAuthenticator(ds) || Signature(header, s, ds, n, secret, hmac) == ZEROS
  {
    var digest := Signature(header, s, ds, n, secret, hmac);
    forall k | 0 <= k < |s| && !InWindow(ds, k)
      ensures Stamped(s, ds, digest)[k] == s[k]
    {
      StampedElsewhere(s, ds, digest, k);
    }
    StampedSame(Stamped(s, ds, digest), s, ds, ZEROS);
    LastOfStamped(s, ds, digest, ZEROS);
    NoAuthenticator(s, ds, ZEROS);
  }

  lemma {:induction false} NoAuthenticator(s: Octets, ds: seq<Descriptor>, found: Digest)
    requires WindowsInside(ds, |s|)
    ensures !HasAuthenticator(ds) ==> LastAuthenticator(s, ds, found) == found
    decreases |ds|
  {
    if ds != [] {
      NoAuthenticator(s, ds[1..], found);
    }
  }

  /** Computing twice changes nothing more, and nothing outside the windows ever moves. */
  lemma ComputeTwice(code: byte, header: Octets, s: Octets, ds: seq<Descriptor>, n: nat, secret: Octets, hmac: Mac)
    requires WindowsInside(ds, |s|) && n <= |s|
    ensures var signed := Signed(code, header, s, ds, n, secret, hmac);
      && Signed(code, header, signed, ds, n, secret, hmac) == signed
      && forall k | 0 <= k < |s| && !InWindow(ds, k) :: signed[k] == s[k]
  {
    var digest := Signature(header, s, ds, n, secret, hmac);
    forall k | 0 <= k < |s| && !InWindow(ds, k)
      ensures Stamped(s, ds, digest)[k] == s[k]
    {
      StampedElsewhere(s, ds, digest, k);
    }
    StampedSame(Stamped(s, ds, digest), s, ds, ZEROS);
    LastOfStamped(s, ds, digest, ZEROS);
  }

  /** The list with every Message-Authenticator from index j on, among those the parser saw,
      replaced. */
  function Sealed(contents: seq<Attribute>, j: nat, digest: Digest): (r: seq<Attribute>)
    requires j <= |Visible(contents)|
    ensures |r| == |contents|
    decreases |contents| - j
  {
    if j == |Visible(contents)| then contents
    else
      var hit := contents[j].kind == MESSAGE_AUTHENTICATOR;
      Sealed(if hit then contents[j := Attribute(MESSAGE_AUTHENTICATOR, digest)] else contents, j + 1, digest)
  }

  ghost predicate SixteenOctets(contents: seq<Attribute>) {
    forall a | a in Visible(contents) && a.kind == MESSAGE_AUTHENTICATOR :: |a.value| == 16
  }

  /** Where every Message-Authenticator has 16 octets, stamping replaces their values and nothing
      else: the list stays readable and every descriptor stays where it was. */
  lemma {:induction false} StampedIsSealed(s: Octets, n: nat, contents: seq<Attribute>, j: nat, digest: Digest)
    requires n <= |s| && Decode(s[..n]) == Some(contents) && j <= |Visible(contents)|
    requires SixteenOctets(contents)
    ensures var ds := Layout(Visible(contents), 0)[j..];
      && WindowsInside(ds, |s|)
      && Decode(Stamped(s, ds, digest)[..n]) == Some(Sealed(contents, j, digest))
      && Layout(Visible(Sealed(contents, j, digest)), 0) == Layout(Visible(contents), 0)
    decreases |contents| - j
  {
    hide Decode, Serialize, Patched;
    var seen := Visible(contents);
    var ds := Layout(seen, 0);
    if j < |seen| {
      var d, a := ds[j], contents[j];
      assert ds[j..][1..] == ds[j + 1..];
      Located(s[..n], contents, j);
      if a.kind == MESSAGE_AUTHENTICATOR {
        assert seen[j] in seen;
        var b := Attribute(MESSAGE_AUTHENTICATOR, digest);
        ReplacedOctets(s[..n], contents, j, b);
        ReplacedInPlace(contents, j, b);
        OverwriteOctets(s, n, d, digest);
        assert digest + s[..n][d.pos + 16..d.pos + d.len] == digest;
        assert Visible(contents[j := b]) == seen[j := b];
        StampedIsSealed(Copied(s, d.pos, digest), n, contents[j := b], j + 1, digest);
      } else {
        StampedIsSealed(s, n, contents, j + 1, digest);
      }
    }
  }

  /** Every Message-Authenticator among the attributes the parser saw has this value. */
  function Marked(contents: seq<Attribute>, digest: Digest): (r: seq<Attribute>)
    ensures |r| == |contents|
    ensures forall i | 0 <= i < |r| ::
      r[i] == if i < 25 && contents[i].kind == 80 then Attribute(80, digest) else contents[i]
  {
    seq(|contents|, i requires 0 <= i < |contents| =>
      if i < |Visible(contents)| && contents[i].kind == MESSAGE_AUTHENTICATOR
      then Attribute(MESSAGE_AUTHENTICATOR, digest) else contents[i])
  }

  /** The last Message-Authenticator that the parser saw, or zeros. */
  function Authenticator(contents: seq<Attribute>): (found: Digest)
    requires SixteenOctets(contents)
    ensures forall i | 0 <= i < |contents| && i < 25 && contents[i].kind == 80 ::
      (exists j | i < j < |contents| && j < 25 :: contents[j].kind == 80) || found == contents[i].value
    ensures (forall i | 0 <= i < |contents| && i < 25 :: contents[i].kind != 80) ==> found == ZEROS
  {
    match LastAmong(Visible(contents), MESSAGE_AUTHENTICATOR)
    case None => ZEROS
    case Some(i) => assert Visible(contents)[i] in Visible(contents); contents[i].value
  }

  lemma {:induction false} SealedBelow(contents: seq<Attribute>, j: nat, digest: Digest)
    requires j <= |Visible(contents)|
    ensures forall i | 0 <= i < |contents| ::
      Sealed(contents, j, digest)[i]
      == if j <= i < |Visible(contents)| && contents[i].kind == MESSAGE_AUTHENTICATOR
         then Attribute(MESSAGE_AUTHENTICATOR, digest) else contents[i]
    decreases |contents| - j
  {
    if j < |Visible(contents)| {
      var hit := contents[j].kind == MESSAGE_AUTHENTICATOR;
      SealedBelow(if hit then contents[j := Attribute(MESSAGE_AUTHENTICATOR, digest)] else contents, j + 1, digest);
    }
  }

  lemma StampedIsMarked(s: Octets, n: nat, contents: seq<Attribute>, digest: Digest)
    requires n <= |s| && Decode(s[..n]) == Some(contents) && SixteenOctets(contents)
    ensures var ds := Layout(Visible(contents), 0);
      && WindowsInside(ds, |s|)
      && Decode(Stamped(s, ds, digest)[..n]) == Some(Marked(contents, digest))
      && Layout(Visible(Marked(contents, digest)), 0) == Layout(Visible(contents), 0)
  {
    var ds := Layout(Visible(contents), 0);
    StampedIsSealed(s, n, contents, 0, digest);
    assert ds[0..] == ds;
    SealedBelow(contents, 0, digest);
    assert Sealed(contents, 0, digest) == Marked(contents, digest);
  }

  lemma {:induction false} LastAuthenticatorAt(s: Octets, ds: seq<Descriptor>, i: nat, found: Digest)
    requires WindowsInside(ds, |s|) && i < |ds| && ds[i].kind == MESSAGE_AUTHENTICATOR
    requires forall j | i < j < |ds| :: ds[j].kind != MESSAGE_AUTHENTICATOR
    ensures ds[i].pos + 16 <= |s| && LastAuthenticator(s, ds, found) == s[ds[i].pos..ds[i].pos + 16]
    decreases |ds|
  {
    var next := if ds[0].kind == MESSAGE_AUTHENTICATOR then s[ds[0].pos..ds[0].pos + 16] else found;
    if i == 0 {
      NothingLater(ds[1..]);
      NoAuthenticator(s, ds[1..], next);
    } else {
      LastAuthenticatorAt(s, ds[1..], i - 1, next);
    }
  }

  lemma {:induction false} NothingLater(ds: seq<Descriptor>)
    requires forall j | 0 <= j < |ds| :: ds[j].kind != MESSAGE_AUTHENTICATOR
    ensures !HasAuthenticator(ds)
  {
    if ds != [] {
      NothingLater(ds[1..]);
    }
  }

  /** What is compared and what is signed, said of the list: the last Message-Authenticator, and the
      header followed by the list with all of them zero. */
  lemma SignedList(s: Octets, n: nat, contents: seq<Attribute>, header: Octets, secret: Octets, hmac: Mac)
    requires n <= |s| && Decode(s[..n]) == Some(contents) && SixteenOctets(contents)
    ensures var ds := Layout(Visible(contents), 0);
      && WindowsInside(ds, |s|)
      && LastAuthenticator(s, ds, ZEROS) == Authenticator(contents)
      && Signature(header, s, ds, n, secret, hmac) == hmac(secret, header + Serialize(Marked(contents, ZEROS)))
  {
    StampedIsMarked(s, n, contents, ZEROS);
    LastIsAuthenticator(s, n, contents);
    SerializeDecode(Stamped(s, Layout(Visible(contents), 0), ZEROS)[..n]);
    hide Decode, Serialize, Layout, Stamped, LastAuthenticator, Marked, Authenticator, Visible;
  }

  lemma SignedContents(code: byte, header: Octets, s: Octets, n: nat, contents: seq<Attribute>, secret: Octets,
                       hmac: Mac)
    requires n <= |s| && Decode(s[..n]) == Some(contents) && SixteenOctets(contents)
    ensures var ds := Layout(Visible(contents), 0);
      && WindowsInside(ds, |s|)
      && var signed, digest := Signed(code, header, s, ds, n, secret, hmac),
                               hmac(secret, header + Serialize(Marked(contents, ZEROS)));
         var after := if code != 1 || Authenticator(contents) == digest then contents else Marked(contents, digest);
         && (code != 1 ==> signed == s)
         && Decode(signed[..n]) == Some(after) && Layout(Visible(after), 0) == ds
  {
    SignedList(s, n, contents, header, secret, hmac);
    StampedIsMarked(s, n, contents, hmac(secret, header + Serialize(Marked(contents, ZEROS))));
    hide Decode, Serialize, Layout, Stamped, LastAuthenticator, Marked, Authenticator, Visible, Signature;
  }

  lemma LastIsAuthenticator(s: Octets, n: nat, contents: seq<Attribute>)
    requires n <= |s| && Decode(s[..n]) == Some(contents) && SixteenOctets(contents)
    requires WindowsInside(Layout(Visible(contents), 0), |s|)
    ensures LastAuthenticator(s, Layout(Visible(contents), 0), ZEROS) == Authenticator(contents)
  {
    var seen := Visible(contents);
    var ds := Layout(seen, 0);
    forall j | 0 <= j < |seen|
      ensures ds[j].kind == seen[j].kind
    {
      LayoutAt(seen, 0, j);
    }
    hide Decode, Layout, LastAuthenticator;
    match LastAmong(seen, MESSAGE_AUTHENTICATOR)
    case None =>
      NothingLater(ds);
      NoAuthenticator(s, ds, ZEROS);
    case Some(i) =>
      assert seen[i] in seen;
      LastAuthenticatorAt(s, ds, i, ZEROS);
      AuthenticatorOctets(s, n, contents, i);
  }

  lemma AuthenticatorOctets(s: Octets, n: nat, contents: seq<Attribute>, i: nat)
    requires n <= |s| && Decode(s[..n]) == Some(contents) && i < |Visible(contents)| && |contents[i].value| == 16
    ensures var d := Layout(Visible(contents), 0)[i];
      d.pos + 16 <= n && s[d.pos..d.pos + 16] == contents[i].value
  {
    hide Decode, Serialize, Layout;
    Located(s[..n], contents, i);
    ValueAt(Serialize(contents[..i]), contents[i], Serialize(contents[i + 1..]), 0);
    var d := Layout(Visible(contents), 0)[i];
    assert s[d.pos..d.pos + 16] == s[..n][d.pos..d.pos + 16];
  }
}
