/** What the session tracker reads out of the attributes of a message. */
module RadiusReading {
  import opened Common
  import opened RadiusWire
  import opened RadiusPacket
  import RadiusOutput

  const AUTH_USERNAME: byte := 1
  const NAS_IP: byte := 4
  const CALLED_STATION_ID: byte := 30
  const CALLING_STATION_ID: byte := 31
  const NAS_IDENTIFIER: byte := 32
  const PROXY_STATE: byte := 33
  const ACCT_STATUS_TYPE: byte := 40
  const ACCT_INPUT_OCTETS: byte := 42
  const ACCT_OUTPUT_OCTETS: byte := 43
  const ACCT_SESSION_ID: byte := 44
  const ACCT_SESSION_TIME: byte := 46
  const ACCT_INPUT_PACKETS: byte := 47
  const ACCT_OUTPUT_PACKETS: byte := 48
  const ACCT_TERMINATE_CAUSE: byte := 49
  const ACCT_MULTI_SESSION_ID: byte := 50
  const ACCT_INPUT_GIGAWORDS: byte := 52
  const ACCT_OUTPUT_GIGAWORDS: byte := 53
  const EVENT_TIMESTAMP: byte := 55
  const CHARGEABLE_USER_IDENTITY: byte := 89

  /** What the messages carry about a session. */
  datatype Fields = Fields(userName: Octets, callingStationId: Octets, calledStationId: Octets,
                           sessionId: Octets, multiSessionId: Octets, chargeableUserIdentity: Octets)

  datatype Counters = Counters(inputOctets: nat, inputPackets: nat, inputGigaWords: nat,
                               outputOctets: nat, outputPackets: nat, outputGigaWords: nat, sessionTime: nat)

  datatype Reading = Reading(fields: Fields, nasId: Octets, proxyInterface: Octets, status: byte, counters: Counters)

  const NO_FIELDS := Fields([], [], [], [], [], [])
  const NO_COUNTERS := Counters(0, 0, 0, 0, 0, 0, 0)

  /** The two loops over the attributes: that of authentication messages and that of accounting. */
  datatype Loop = OfAuthentication | OfAccounting

  /** The kinds whose values are copied. */
  predicate Textual(kind: byte, loop: Loop) {
    || kind in [AUTH_USERNAME, CALLING_STATION_ID, CALLED_STATION_ID, ACCT_SESSION_ID, ACCT_MULTI_SESSION_ID,
                CHARGEABLE_USER_IDENTITY, PROXY_STATE]
    || (kind == NAS_IDENTIFIER && loop == OfAuthentication)
  }

  /** The kinds of which four octets are read, however long the value is. */
  predicate Numeric(kind: byte, loop: Loop) {
    && loop == OfAccounting
    && kind in [ACCT_STATUS_TYPE, ACCT_INPUT_OCTETS, ACCT_OUTPUT_OCTETS, ACCT_SESSION_TIME, ACCT_INPUT_PACKETS,
                ACCT_OUTPUT_PACKETS, ACCT_INPUT_GIGAWORDS, ACCT_OUTPUT_GIGAWORDS]
  }

  /** Where a value ends: the sum is taken in 32 bits. */
  function EndOf(d: Descriptor): nat {
    (d.pos + d.len) % TWO_32
  }

  /** A value that ends before it begins; to copy it raises an error. */
  predicate Backwards(d: Descriptor) {
    EndOf(d) < d.pos
  }

  /** Whatever a loop reads is in the buffer. */
  ghost predicate Legible(bytes: Octets, ds: seq<Descriptor>, loop: Loop) {
    forall d | d in ds ::
      && (Textual(d.kind, loop) ==> EndOf(d) <= |bytes|)
      && (Numeric(d.kind, loop) ==> d.pos + 3 < |bytes|)
  }

  ghost predicate Readable(p: Image, loop: Loop) {
    Legible(p.attributes, p.attrs, loop)
  }

  /** No copy that a loop makes raises an error. */
  predicate Copies(ds: seq<Descriptor>, loop: Loop) {
    forall d | d in ds && Textual(d.kind, loop) :: !Backwards(d)
  }

  /** The last attribute of a kind. */
  function LastOf(ds: seq<Descriptor>, kind: byte): (d: Option<Descriptor>)
    ensures d.Some? ==> d.value in ds && d.value.kind == kind
  {
    if ds == [] then None
    else if ds[|ds| - 1].kind == kind then Some(ds[|ds| - 1])
    else LastOf(ds[..|ds| - 1], kind)
  }

  /** The value of the last attribute of a kind, or nothing. */
  ghost function Field(bytes: Octets, ds: seq<Descriptor>, kind: byte, loop: Loop): Octets
    requires Legible(bytes, ds, loop) && Copies(ds, loop)
  {
    if !Textual(kind, loop) then []
    else
      match LastOf(ds, kind)
      case None => []
      case Some(d) => bytes[d.pos..EndOf(d)]
  }

  function Number(bytes: Octets, pos: nat): nat
    requires pos + 3 < |bytes|
  {
    bytes[pos] as int * 0x100_0000 + bytes[pos + 1] as int * 0x1_0000 + bytes[pos + 2] as int * 0x100
      + bytes[pos + 3] as int
  }

  /** The number in the last attribute of a kind, or 0. */
  ghost function Counter(bytes: Octets, ds: seq<Descriptor>, kind: byte, loop: Loop): nat
    requires Legible(bytes, ds, loop)
  {
    if !Numeric(kind, loop) then 0
    else
      match LastOf(ds, kind)
      case None => 0
      case Some(d) => Number(bytes, d.pos)
  }

  /** The octet that tells the status is in the buffer. */
  ghost predicate StatusLegible(bytes: Octets, ds: seq<Descriptor>) {
    forall d | d in ds && d.kind == ACCT_STATUS_TYPE :: d.pos + 3 < |bytes|
  }

  /** The fourth octet of the last Acct-Status-Type, or 0. */
  ghost function Status(bytes: Octets, ds: seq<Descriptor>): byte
    requires StatusLegible(bytes, ds)
  {
    match LastOf(ds, ACCT_STATUS_TYPE)
    case None => 0
    case Some(d) => bytes[d.pos + 3]
  }

  /** The interface that a Proxy-State value names: the last of its tokens, if it has four. */
  function InterfaceIn(value: Octets): Option<Octets> {
    var tokens := RadiusOutput.Tokens(value);
    if |tokens| == 4 then Some(tokens[3]) else None
  }

  /** The interface that an attribute names, if it is such a Proxy-State. */
  function InterfaceAt(bytes: Octets, d: Descriptor): Option<Octets> {
    if d.kind == PROXY_STATE && d.pos <= EndOf(d) <= |bytes| then InterfaceIn(bytes[d.pos..EndOf(d)]) else None
  }

  /** The interface in the last Proxy-State that names one, or nothing. */
  ghost function Interface(bytes: Octets, ds: seq<Descriptor>, loop: Loop): Octets
    requires Legible(bytes, ds, loop) && Copies(ds, loop)
  {
    if ds == [] then []
    else
      match InterfaceAt(bytes, ds[|ds| - 1])
      case Some(name) => name
      case None => Interface(bytes, ds[..|ds| - 1], loop)
  }

  ghost function FieldsOf(bytes: Octets, ds: seq<Descriptor>, loop: Loop): Fields
    requires Legible(bytes, ds, loop) && Copies(ds, loop)
  {
    Fields(Field(bytes, ds, AUTH_USERNAME, loop), Field(bytes, ds, CALLING_STATION_ID, loop),
           Field(bytes, ds, CALLED_STATION_ID, loop), Field(bytes, ds, ACCT_SESSION_ID, loop),
           Field(bytes, ds, ACCT_MULTI_SESSION_ID, loop), Field(bytes, ds, CHARGEABLE_USER_IDENTITY, loop))
  }

  ghost function CountersOf(bytes: Octets, ds: seq<Descriptor>, loop: Loop): Counters
    requires Legible(bytes, ds, loop)
  {
    Counters(Counter(bytes, ds, ACCT_INPUT_OCTETS, loop), Counter(bytes, ds, ACCT_INPUT_PACKETS, loop),
             Counter(bytes, ds, ACCT_INPUT_GIGAWORDS, loop), Counter(bytes, ds, ACCT_OUTPUT_OCTETS, loop),
             Counter(bytes, ds, ACCT_OUTPUT_PACKETS, loop), Counter(bytes, ds, ACCT_OUTPUT_GIGAWORDS, loop),
             Counter(bytes, ds, ACCT_SESSION_TIME, loop))
  }

  ghost function ReadingOf(bytes: Octets, ds: seq<Descriptor>, loop: Loop): Reading
    requires Legible(bytes, ds, loop) && Copies(ds, loop)
  {
    Reading(FieldsOf(bytes, ds, loop), Field(bytes, ds, NAS_IDENTIFIER, loop), Interface(bytes, ds, loop),
            if loop == OfAccounting then Status(bytes, ds) else 0, CountersOf(bytes, ds, loop))
  }

  /** What a loop reads in a message, or nothing, and then the message is dropped. */
  ghost function ReadingIn(p: Image, loop: Loop): Option<Reading>
    requires Readable(p, loop)
  {
    if Copies(p.attrs, loop) then Some(ReadingOf(p.attributes, p.attrs, loop)) else None
  }

  lemma LastOfMore(before: seq<Descriptor>, d: Descriptor)
    ensures forall kind :: LastOf(before + [d], kind) == if d.kind == kind then Some(d) else LastOf(before, kind)
  {
    assert (before + [d])[..|before|] == before;
  }

  /** One attribute more can be read, and copied. */
  ghost predicate Joins(bytes: Octets, before: seq<Descriptor>, d: Descriptor, loop: Loop) {
    && Legible(bytes, before, loop) && Copies(before, loop)
    && Legible(bytes, before + [d], loop) && Copies(before + [d], loop)
  }

  lemma JoinsMeans(bytes: Octets, before: seq<Descriptor>, d: Descriptor, loop: Loop)
    requires Joins(bytes, before, d, loop)
    ensures Textual(d.kind, loop) ==> d.pos <= EndOf(d) <= |bytes|
    ensures Numeric(d.kind, loop) ==> d.pos + 3 < |bytes|
  {
    assert d in before + [d];
  }

  lemma InterfaceOfMore(bytes: Octets, before: seq<Descriptor>, d: Descriptor, loop: Loop)
    requires Joins(bytes, before, d, loop)
    ensures d.kind == PROXY_STATE ==> d.pos <= EndOf(d) <= |bytes|
    ensures Interface(bytes, before + [d], loop)
         == if InterfaceAt(bytes, d).Some? then InterfaceAt(bytes, d).value else Interface(bytes, before, loop)
    ensures InterfaceAt(bytes, d).Some? ==> d.kind == PROXY_STATE
  {
    JoinsMeans(bytes, before, d, loop);
    var all := before + [d];
    assert all[|all| - 1] == d && all[..|all| - 1] == before;
    assert InterfaceAt(bytes, d).Some? ==> d.kind == PROXY_STATE;
    hide InterfaceAt, Legible, Copies;
  }

  lemma FieldOfMore(bytes: Octets, before: seq<Descriptor>, d: Descriptor, kind: byte, loop: Loop)
    requires Joins(bytes, before, d, loop)
    ensures Textual(d.kind, loop) ==> d.pos <= EndOf(d) <= |bytes|
    ensures Field(bytes, before + [d], kind, loop)
         == if d.kind == kind && Textual(kind, loop) then bytes[d.pos..EndOf(d)] else Field(bytes, before, kind, loop)
  {
    JoinsMeans(bytes, before, d, loop);
    LastOfMore(before, d);
    hide LastOf, Textual, EndOf, Numeric;
  }

  lemma CounterOfMore(bytes: Octets, before: seq<Descriptor>, d: Descriptor, kind: byte, loop: Loop)
    requires Joins(bytes, before, d, loop)
    ensures Numeric(d.kind, loop) ==> d.pos + 3 < |bytes|
    ensures Counter(bytes, before + [d], kind, loop)
         == if d.kind == kind && Numeric(kind, loop) then Number(bytes, d.pos) else Counter(bytes, before, kind, loop)
  {
    JoinsMeans(bytes, before, d, loop);
    LastOfMore(before, d);
    hide LastOf, Textual, EndOf, Numeric, Number;
  }

  function WithText(fields: Fields, kind: byte, value: Octets): Fields {
    match kind
    case 1 => fields.(userName := value)
    case 31 => fields.(callingStationId := value)
    case 30 => fields.(calledStationId := value)
    case 44 => fields.(sessionId := value)
    case 50 => fields.(multiSessionId := value)
    case 89 => fields.(chargeableUserIdentity := value)
    case _ => fields
  }

  function WithNumber(counters: Counters, kind: byte, n: nat): Counters {
    match kind
    case 42 => counters.(inputOctets := n)
    case 47 => counters.(inputPackets := n)
    case 52 => counters.(inputGigaWords := n)
    case 43 => counters.(outputOctets := n)
    case 48 => counters.(outputPackets := n)
    case 53 => counters.(outputGigaWords := n)
    case 46 => counters.(sessionTime := n)
    case _ => counters
  }

  lemma FieldsOfMore(bytes: Octets, before: seq<Descriptor>, d: Descriptor, loop: Loop)
    requires Joins(bytes, before, d, loop)
    ensures Textual(d.kind, loop) ==> d.pos <= EndOf(d) <= |bytes|
    ensures FieldsOf(bytes, before + [d], loop)
         == if Textual(d.kind, loop) then WithText(FieldsOf(bytes, before, loop), d.kind, bytes[d.pos..EndOf(d)])
            else FieldsOf(bytes, before, loop)
  {
    FieldOfMore(bytes, before, d, AUTH_USERNAME, loop);
    FieldOfMore(bytes, before, d, CALLING_STATION_ID, loop);
    FieldOfMore(bytes, before, d, CALLED_STATION_ID, loop);
    FieldOfMore(bytes, before, d, ACCT_SESSION_ID, loop);
    FieldOfMore(bytes, before, d, ACCT_MULTI_SESSION_ID, loop);
    FieldOfMore(bytes, before, d, CHARGEABLE_USER_IDENTITY, loop);
    hide Field, EndOf, Legible, Copies;
  }

  lemma CountersOfMore(bytes: Octets, before: seq<Descriptor>, d: Descriptor, loop: Loop)
    requires Joins(bytes, before, d, loop)
    ensures Numeric(d.kind, loop) ==> d.pos + 3 < |bytes|
    ensures CountersOf(bytes, before + [d], loop)
         == if Numeric(d.kind, loop) then WithNumber(CountersOf(bytes, before, loop), d.kind, Number(bytes, d.pos))
            else CountersOf(bytes, before, loop)
  {
    CounterOfMore(bytes, before, d, ACCT_INPUT_OCTETS, loop);
    CounterOfMore(bytes, before, d, ACCT_INPUT_PACKETS, loop);
    CounterOfMore(bytes, before, d, ACCT_INPUT_GIGAWORDS, loop);
    CounterOfMore(bytes, before, d, ACCT_OUTPUT_OCTETS, loop);
    CounterOfMore(bytes, before, d, ACCT_OUTPUT_PACKETS, loop);
    CounterOfMore(bytes, before, d, ACCT_OUTPUT_GIGAWORDS, loop);
    CounterOfMore(bytes, before, d, ACCT_SESSION_TIME, loop);
    hide Counter, EndOf, Legible, Copies, Number;
  }

  lemma StatusOfMore(bytes: Octets, before: seq<Descriptor>, d: Descriptor)
    requires StatusLegible(bytes, before) && StatusLegible(bytes, before + [d])
    ensures d.kind == ACCT_STATUS_TYPE ==> d.pos + 3 < |bytes|
    ensures Status(bytes, before + [d])
         == if d.kind == ACCT_STATUS_TYPE then bytes[d.pos + 3] else Status(bytes, before)
  {
    assert d in before + [d];
    LastOfMore(before, d);
  }

  /** What one attribute adds to what was read before it. */
  function WithAttribute(bytes: Octets, d: Descriptor, loop: Loop, r: Reading): Reading
    requires Textual(d.kind, loop) ==> d.pos <= EndOf(d) <= |bytes|
    requires Numeric(d.kind, loop) ==> d.pos + 3 < |bytes|
  {
    if Textual(d.kind, loop) then
      var value := bytes[d.pos..EndOf(d)];
      Reading(WithText(r.fields, d.kind, value), if d.kind == NAS_IDENTIFIER then value else r.nasId,
              if InterfaceAt(bytes, d).Some? then InterfaceAt(bytes, d).value else r.proxyInterface,
              r.status, r.counters)
    else if Numeric(d.kind, loop) then
      r.(counters := WithNumber(r.counters, d.kind, Number(bytes, d.pos)),
         status := if d.kind == ACCT_STATUS_TYPE then bytes[d.pos + 3] else r.status)
    else r
  }

  lemma Kinds(kind: byte, loop: Loop)
    ensures !(Textual(kind, loop) && Numeric(kind, loop))
    ensures kind == PROXY_STATE ==> Textual(kind, loop)
    ensures kind == ACCT_STATUS_TYPE ==> (Numeric(kind, loop) <==> loop == OfAccounting)
    ensures Numeric(kind, loop) ==> loop == OfAccounting
  {
  }

  lemma Assembled(bytes: Octets, d: Descriptor, loop: Loop, r: Reading, s: Reading)
    requires Textual(d.kind, loop) ==> d.pos <= EndOf(d) <= |bytes|
    requires Numeric(d.kind, loop) ==> d.pos + 3 < |bytes|
    requires s.fields == if Textual(d.kind, loop) then WithText(r.fields, d.kind, bytes[d.pos..EndOf(d)]) else r.fields
    requires s.nasId
          == if d.kind == NAS_IDENTIFIER && Textual(d.kind, loop) then bytes[d.pos..EndOf(d)] else r.nasId
    requires d.kind == PROXY_STATE ==> Textual(d.kind, loop)
    requires s.proxyInterface == if InterfaceAt(bytes, d).Some? then InterfaceAt(bytes, d).value else r.proxyInterface
    requires s.status == if d.kind == ACCT_STATUS_TYPE && Numeric(d.kind, loop) then bytes[d.pos + 3] else r.status
    requires s.counters
          == if Numeric(d.kind, loop) then WithNumber(r.counters, d.kind, Number(bytes, d.pos)) else r.counters
    ensures s == WithAttribute(bytes, d, loop, r)
  {
    Kinds(d.kind, loop);
    hide Textual, Numeric, WithText, WithNumber, Number, EndOf, InterfaceIn;
  }

  lemma ReadingOfMore(bytes: Octets, before: seq<Descriptor>, d: Descriptor, loop: Loop)
    requires Joins(bytes, before, d, loop)
    ensures Textual(d.kind, loop) ==> d.pos <= EndOf(d) <= |bytes|
    ensures Numeric(d.kind, loop) ==> d.pos + 3 < |bytes|
    ensures ReadingOf(bytes, before + [d], loop) == WithAttribute(bytes, d, loop, ReadingOf(bytes, before, loop))
  {
    FieldsOfMore(bytes, before, d, loop);
    FieldOfMore(bytes, before, d, NAS_IDENTIFIER, loop);
    InterfaceOfMore(bytes, before, d, loop);
    CountersOfMore(bytes, before, d, loop);
    if loop == OfAccounting {
      StatusOfMore(bytes, before, d);
    }
    Kinds(d.kind, loop);
    hide LastOf, FieldsOf, CountersOf, Field, Status, Interface, Number, Legible, Copies, EndOf, Joins;
    hide WithText, WithNumber, InterfaceIn, InterfaceAt, Textual, Numeric, StatusLegible, WithAttribute;
    Assembled(bytes, d, loop, ReadingOf(bytes, before, loop), ReadingOf(bytes, before + [d], loop));
  }

  lemma NextJoins(bytes: Octets, ds: seq<Descriptor>, i: nat, loop: Loop)
    requires i < |ds| && Legible(bytes, ds, loop) && Copies(ds[..i], loop)
    requires Textual(ds[i].kind, loop) ==> !Backwards(ds[i])
    ensures ds[..i + 1] == ds[..i] + [ds[i]] && Joins(bytes, ds[..i], ds[i], loop)
  {
    hide Textual, Numeric, Backwards, EndOf;
  }

  /** The loop over the attributes of a message, which ends where a copy raises an error. */
  method ReadAttributes(p: Image, loop: Loop) returns (r: Option<Reading>)
    requires Readable(p, loop)
    ensures r == ReadingIn(p, loop)
  {
    var reading := Reading(NO_FIELDS, [], [], 0, NO_COUNTERS);
    assert reading == ReadingOf(p.attributes, p.attrs[..0], loop);
    hide ReadingOf, Textual, Numeric, Backwards, WithAttribute;
    var i := 0;
    while i < |p.attrs|
      invariant i <= |p.attrs|
      invariant Legible(p.attributes, p.attrs[..i], loop) && Copies(p.attrs[..i], loop)
      invariant reading == ReadingOf(p.attributes, p.attrs[..i], loop)
    {
      var d := p.attrs[i];
      if Textual(d.kind, loop) && Backwards(d) {
        return None;
      }
      NextJoins(p.attributes, p.attrs, i, loop);
      ReadingOfMore(p.attributes, p.attrs[..i], d, loop);
      hide Legible, Copies;
      reading := WithAttribute(p.attributes, d, loop, reading);
      i := i + 1;
    }
    assert p.attrs[..i] == p.attrs;
    r := Some(reading);
  }

  /** A well-formed packet can be read if it is four octets short of the buffer, as every packet of
      at most 4096 octets is (section 3 of RFC 2865), or if its numbers have four octets; and it is
      not dropped. */
  lemma WellFormedIsReadable(p: Image, loop: Loop)
    requires ImageWellFormed(p)
    requires |ImageArea(p)| + 4 <= AREA_SIZE
             || forall a | a in Visible(ImageContents(p)) && Numeric(a.kind, loop) :: |a.value| >= 4
    ensures Readable(p, loop) && ReadingIn(p, loop).Some?
    ensures forall d | d in p.attrs :: d.len <= 253
  {
    hide Layout, Numeric, Textual, Decode, Serialize;
    var seen := Visible(ImageContents(p));
    forall d | d in p.attrs
      ensures d.pos <= EndOf(d) <= |p.attributes| && (Numeric(d.kind, loop) ==> d.pos + 3 < |p.attributes|)
      ensures d.len <= 253
    {
      var i :| 0 <= i < |p.attrs| && p.attrs[i] == d;
      WithinArea(ImageArea(p), i);
      assert seen[i] in seen;
    }
  }

  /** Whatever the parser makes of any octets, well formed or not, what a loop reads of it is in the
      buffer; and the message is dropped exactly when the length of a text is a wrapped one. */
  lemma ParsedIsReadable(p: Image, n: nat, loop: Loop)
    requires |p.attributes| == AREA_SIZE && n + 4 < AREA_SIZE && p.attrs == Parse(p.attributes, n).attrs
    ensures Readable(p, loop)
    ensures ReadingIn(p, loop) == None <==> exists d | d in p.attrs :: Textual(d.kind, loop) && Wrapped(d)
    ensures forall d | d in p.attrs :: d.len <= 253 || Backwards(d)
  {
    hide Numeric, Textual, ReadingOf, Parse;
    forall d | d in p.attrs
      ensures EndOf(d) <= |p.attributes| && d.pos + 3 < |p.attributes|
      ensures Backwards(d) <==> Wrapped(d)
      ensures d.len <= 253 || Wrapped(d)
    {
      var i :| 0 <= i < |p.attrs| && p.attrs[i] == d;
      ParsedBounds(p.attributes, n, i);
    }
  }

  lemma ParsedBounds(bytes: Octets, n: nat, i: nat)
    requires |bytes| == AREA_SIZE && n + 4 < AREA_SIZE && i < |Parse(bytes, n).attrs|
    ensures var d := Parse(bytes, n).attrs[i];
      && EndOf(d) <= |bytes| && d.pos + 3 < |bytes|
      && (Backwards(d) <==> Wrapped(d))
      && (d.len <= 253 || Wrapped(d))
  {
    RecordedBounds(bytes, n, 0, MAX_PARSED, i);
  }

  lemma WithinArea(area: Octets, i: nat)
    requires Decode(area).Some? && i < |Visible(Decode(area).value)|
    ensures var seen := Visible(Decode(area).value); var d := Layout(seen, 0)[i];
      d.kind == seen[i].kind && d.len == |seen[i].value| && d.pos + d.len <= |area|
  {
    var all := Decode(area).value;
    var seen := Visible(all);
    SerializeDecode(area);
    assert all == seen + all[|seen|..];
    SerializeConcat(seen, all[|seen|..]);
    LayoutTiles(seen, i);
    LayoutAt(seen, 0, i);
  }

  /* ---------- what a well-formed packet is read as ---------- */

  lemma {:induction false} LastOfAt(ds: seq<Descriptor>, kind: byte, i: nat)
    requires i < |ds| && ds[i].kind == kind && forall j | i < j < |ds| :: ds[j].kind != kind
    ensures LastOf(ds, kind) == Some(ds[i])
  {
    if i < |ds| - 1 {
      LastOfAt(ds[..|ds| - 1], kind, i);
    }
  }

  lemma {:induction false} NoLastOf(ds: seq<Descriptor>, kind: byte)
    requires forall j | 0 <= j < |ds| :: ds[j].kind != kind
    ensures LastOf(ds, kind) == None
  {
    if ds != [] {
      NoLastOf(ds[..|ds| - 1], kind);
    }
  }

  /** Searching descriptors from the end is searching attributes from the end. */
  lemma LastOfLayout(attrs: seq<Attribute>, kind: byte)
    ensures LastOf(Layout(attrs, 0), kind)
         == match LastAmong(attrs, kind) { case None => None case Some(i) => Some(Layout(attrs, 0)[i]) }
  {
    forall j | 0 <= j < |attrs|
      ensures Layout(attrs, 0)[j].kind == attrs[j].kind
    {
      LayoutAt(attrs, 0, j);
    }
    hide Layout, LastOf;
    match LastAmong(attrs, kind)
    case None => NoLastOf(Layout(attrs, 0), kind);
    case Some(i) => LastOfAt(Layout(attrs, 0), kind, i);
  }

  /** The value of the last attribute of a kind among those the parser saw, or nothing. */
  function TextOf(attrs: seq<Attribute>, kind: byte): Octets {
    TextIn(Visible(attrs), kind)
  }

  function TextIn(attrs: seq<Attribute>, kind: byte): Octets {
    match LastAmong(attrs, kind)
    case None => []
    case Some(i) => attrs[i].value
  }

  predicate Carries(attrs: seq<Attribute>, kind: byte) {
    LastAmong(attrs, kind).Some?
  }

  lemma {:induction false} TextInBoth(a: seq<Attribute>, b: seq<Attribute>, kind: byte)
    ensures Carries(a + b, kind) <==> Carries(a, kind) || Carries(b, kind)
    ensures TextIn(a + b, kind) == if Carries(b, kind) then TextIn(b, kind) else TextIn(a, kind)
  {
    if b == [] {
      assert a + b == a;
    } else {
      var all := a + b;
      assert all[..|all| - 1] == a + b[..|b| - 1] && all[|all| - 1] == b[|b| - 1];
      TextInBoth(a, b[..|b| - 1], kind);
    }
  }

  /** The last attribute of a kind among those the parser saw stands for this number; without one, it is 0,
      and one that is too short says nothing. */
  predicate NumberIs(attrs: seq<Attribute>, kind: byte, number: nat) {
    match LastAmong(Visible(attrs), kind)
    case None => number == 0
    case Some(i) => |attrs[i].value| >= 4 ==> StandsFor(attrs[i].value, number)
  }

  lemma ValueIsCopied(p: Image, i: nat)
    requires ImageWellFormed(p) && i < |p.attrs|
    ensures var d, a := p.attrs[i], ImageContents(p)[i];
      && d.pos <= EndOf(d) <= |p.attributes| && EndOf(d) - d.pos == |a.value|
      && p.attributes[d.pos..EndOf(d)] == a.value && d.kind == a.kind
  {
    var area, contents := ImageArea(p), ImageContents(p);
    hide Decode, Layout, Serialize;
    WithinArea(area, i);
    ValueInArea(area, contents, i);
    hide Visible;
    var d := p.attrs[i];
    assert EndOf(d) == d.pos + d.len;
    SliceOfPrefix(p.attributes, |area|, d.pos, d.pos + d.len);
    assert area == p.attributes[..|area|];
  }

  lemma SliceOfPrefix(s: Octets, n: nat, a: nat, b: nat)
    requires a <= b <= n <= |s|
    ensures s[..n][a..b] == s[a..b]
  {
  }

  lemma ValueInArea(area: Octets, contents: seq<Attribute>, i: nat)
    requires Decode(area) == Some(contents) && i < |Visible(contents)|
    ensures var d := Layout(Visible(contents), 0)[i];
      d.pos + d.len <= |area| && area[d.pos..d.pos + d.len] == contents[i].value
  {
    hide Decode, Layout, Serialize;
    Located(area, contents, i);
    ValueAt(Serialize(contents[..i]), contents[i], Serialize(contents[i + 1..]), 0);
  }

  lemma FieldIsText(p: Image, kind: byte, loop: Loop)
    requires ImageWellFormed(p) && Readable(p, loop) && Copies(p.attrs, loop) && Textual(kind, loop)
    ensures Field(p.attributes, p.attrs, kind, loop) == TextOf(ImageContents(p), kind)
  {
    var seen := Visible(ImageContents(p));
    LastOfLayout(seen, kind);
    if LastAmong(seen, kind).Some? {
      ValueIsCopied(p, LastAmong(seen, kind).value);
    }
    hide Layout, Decode, LastOf, LastAmong, Textual, Numeric, EndOf;
  }

  lemma CounterIsNumber(p: Image, kind: byte)
    requires ImageWellFormed(p) && Readable(p, OfAccounting) && Numeric(kind, OfAccounting)
    ensures NumberIs(ImageContents(p), kind, Counter(p.attributes, p.attrs, kind, OfAccounting))
  {
    var seen := Visible(ImageContents(p));
    LastOfLayout(seen, kind);
    if LastAmong(seen, kind).Some? {
      var i := LastAmong(seen, kind).value;
      ValueIsCopied(p, i);
      var d := p.attrs[i];
      if EndOf(d) - d.pos >= 4 {
        FirstFour(p.attributes, d.pos, EndOf(d));
      }
    }
    hide Layout, Decode, LastOf, LastAmong, Textual, Numeric, EndOf, Number, StandsFor;
  }

  lemma FirstFour(bytes: Octets, pos: nat, end: nat)
    requires pos <= end <= |bytes| && end - pos >= 4
    ensures StandsFor(bytes[pos..end], Number(bytes, pos))
  {
  }

  /** What the two loops make of a well-formed packet, kind by kind. */
  lemma ReadingSpells(p: Image, loop: Loop)
    requires ImageWellFormed(p) && Readable(p, loop) && Copies(p.attrs, loop)
    ensures var r, attrs := ReadingOf(p.attributes, p.attrs, loop), ImageContents(p);
      && FieldsSpell(r.fields, attrs)
      && r.nasId == (if loop == OfAuthentication then TextOf(attrs, 32) else [])
  {
    FieldsAreTexts(p, loop);
    if loop == OfAuthentication {
      FieldIsText(p, NAS_IDENTIFIER, loop);
    }
    hide TextOf, Copies, Legible, Interface, FieldsOf, CountersOf, Status, ImageWellFormed, ImageContents, FieldsSpell;
  }

  predicate FieldsSpell(f: Fields, attrs: seq<Attribute>) {
    && f.userName == TextOf(attrs, 1) && f.calledStationId == TextOf(attrs, 30)
    && f.callingStationId == TextOf(attrs, 31) && f.sessionId == TextOf(attrs, 44)
    && f.multiSessionId == TextOf(attrs, 50) && f.chargeableUserIdentity == TextOf(attrs, 89)
  }

  lemma FieldsAreTexts(p: Image, loop: Loop)
    requires ImageWellFormed(p) && Readable(p, loop) && Copies(p.attrs, loop)
    ensures FieldsSpell(FieldsOf(p.attributes, p.attrs, loop), ImageContents(p))
  {
    assert forall kind | kind in [AUTH_USERNAME, CALLED_STATION_ID, CALLING_STATION_ID, ACCT_SESSION_ID,
                                  ACCT_MULTI_SESSION_ID, CHARGEABLE_USER_IDENTITY] :: Textual(kind, loop);
    FieldIsText(p, AUTH_USERNAME, loop);
    FieldIsText(p, CALLED_STATION_ID, loop);
    FieldIsText(p, CALLING_STATION_ID, loop);
    FieldIsText(p, ACCT_SESSION_ID, loop);
    FieldIsText(p, ACCT_MULTI_SESSION_ID, loop);
    FieldIsText(p, CHARGEABLE_USER_IDENTITY, loop);
    hide TextOf, Copies, Legible, Field, ImageWellFormed, ImageContents, Textual;
  }

  /** And the numbers of an accounting message. */
  lemma ReadingCounts(p: Image)
    requires ImageWellFormed(p) && Readable(p, OfAccounting) && Copies(p.attrs, OfAccounting)
    ensures var c, attrs := ReadingOf(p.attributes, p.attrs, OfAccounting).counters, ImageContents(p);
      && NumberIs(attrs, 42, c.inputOctets) && NumberIs(attrs, 43, c.outputOctets)
      && NumberIs(attrs, 46, c.sessionTime)
      && NumberIs(attrs, 47, c.inputPackets) && NumberIs(attrs, 48, c.outputPackets)
      && NumberIs(attrs, 52, c.inputGigaWords) && NumberIs(attrs, 53, c.outputGigaWords)
  {
    CounterIsNumber(p, ACCT_INPUT_OCTETS);
    CounterIsNumber(p, ACCT_OUTPUT_OCTETS);
    CounterIsNumber(p, ACCT_SESSION_TIME);
    CounterIsNumber(p, ACCT_INPUT_PACKETS);
    CounterIsNumber(p, ACCT_OUTPUT_PACKETS);
    CounterIsNumber(p, ACCT_INPUT_GIGAWORDS);
    CounterIsNumber(p, ACCT_OUTPUT_GIGAWORDS);
    hide NumberIs, Copies, Legible, Interface, FieldsOf, Field, Status, ImageWellFormed, ImageContents;
  }

  /* ---------- the interface of a session ---------- */

  lemma {:induction false} TokensHaveNoColon(s: Octets, i: nat)
    requires i < |RadiusOutput.Tokens(s)|
    ensures RadiusOutput.COLON !in RadiusOutput.Tokens(s)[i]
  {
    if s != [] {
      var rest := RadiusOutput.Tokens(s[1..]);
      if s[0] == RadiusOutput.COLON {
        if i > 0 { TokensHaveNoColon(s[1..], i - 1); }
      } else {
        TokensHaveNoColon(s[1..], i);
      }
    }
  }

  lemma {:induction false} InterfaceHasNoColon(bytes: Octets, ds: seq<Descriptor>, loop: Loop)
    requires Legible(bytes, ds, loop) && Copies(ds, loop)
    ensures RadiusOutput.COLON !in Interface(bytes, ds, loop)
  {
    if ds != [] {
      InterfaceHasNoColon(bytes, ds[..|ds| - 1], loop);
      var d := ds[|ds| - 1];
      if d.kind == PROXY_STATE && InterfaceIn(bytes[d.pos..EndOf(d)]).Some? {
        TokensHaveNoColon(bytes[d.pos..EndOf(d)], 3);
      }
    }
  }

  /** The interface is that of the last Proxy-State that names one. */
  lemma {:induction false} InterfaceIsLast(bytes: Octets, ds: seq<Descriptor>, i: nat, loop: Loop)
    requires Legible(bytes, ds, loop) && Copies(ds, loop)
    requires i < |ds| && InterfaceAt(bytes, ds[i]).Some?
    requires forall j | i < j < |ds| :: InterfaceAt(bytes, ds[j]) == None
    ensures Interface(bytes, ds, loop) == InterfaceAt(bytes, ds[i]).value
  {
    if i < |ds| - 1 {
      hide InterfaceAt;
      InterfaceIsLast(bytes, ds[..|ds| - 1], i, loop);
    }
  }

  lemma {:induction false} TokensOfBoth(s: Octets, t: Octets)
    ensures |RadiusOutput.Tokens(s + [RadiusOutput.COLON] + t)| == |RadiusOutput.Tokens(s)| + |RadiusOutput.Tokens(t)|
  {
    var all := s + [RadiusOutput.COLON] + t;
    if s == [] {
      assert all[1..] == t;
    } else {
      assert all[1..] == s[1..] + [RadiusOutput.COLON] + t;
      TokensOfBoth(s[1..], t);
    }
  }
}
