/** The packets that stop accounting for a session whose access point has gone, and which of them say
    so. */
module RadiusStops {
  import opened Common
  import opened RadiusWire
  import opened RadiusPacket
  import opened RadiusReading

  const STATUS_START: byte := 1
  const STATUS_STOP: byte := 2
  const STATUS_INTERIM: byte := 3

  const LOST_CARRIER: nat := 2

  /** The packet of a session that has not seen an accounting message: one without attributes. */
  function NoPacket(): Image {
    Image(0, 0, 0, ZEROS, seq(AREA_SIZE, _ => 0), [], ATTRIBUTE_OFFSET, false)
  }

  /** Where accounting packets for a destination go. A pool that is not generic gets a packet
      with a recomputed authenticator. */
  datatype Route = Unknown | Generic | Pool(secret: Octets)

  /** The attributes of an accounting Stop for a session whose last packet held `attrs`. */
  function StopList(attrs: seq<Attribute>, time: nat): seq<Attribute>
    requires time < TWO_32 && NumbersFit(attrs)
  {
    StatusElsewhere(attrs);
    ReplacedOrAdded(ReplacedNumber(attrs, ACCT_STATUS_TYPE, STATUS_STOP), EVENT_TIMESTAMP, time)
    + [Attribute(ACCT_TERMINATE_CAUSE, BigEndian(LOST_CARRIER))]
  }

  /** A status and a timestamp, where there is one to replace, have at least four octets. */
  predicate NumbersFit(attrs: seq<Attribute>) {
    && (Has(attrs, ACCT_STATUS_TYPE) ==> |attrs[Spot(attrs, ACCT_STATUS_TYPE)].value| >= 4)
    && (Has(attrs, EVENT_TIMESTAMP) ==> |attrs[Spot(attrs, EVENT_TIMESTAMP)].value| >= 4)
  }

  lemma StatusElsewhere(attrs: seq<Attribute>)
    requires NumbersFit(attrs)
    ensures var marked := ReplacedNumber(attrs, ACCT_STATUS_TYPE, STATUS_STOP);
      && Has(marked, EVENT_TIMESTAMP) == Has(attrs, EVENT_TIMESTAMP)
      && (Has(attrs, EVENT_TIMESTAMP) ==>
            Spot(marked, EVENT_TIMESTAMP) == Spot(attrs, EVENT_TIMESTAMP)
            && marked[Spot(attrs, EVENT_TIMESTAMP)] == attrs[Spot(attrs, EVENT_TIMESTAMP)])
  {
    if Has(attrs, ACCT_STATUS_TYPE) {
      ReplacingElsewhere(attrs, ACCT_STATUS_TYPE, Overwritten(attrs[Spot(attrs, ACCT_STATUS_TYPE)].value, STATUS_STOP),
                         EVENT_TIMESTAMP);
    }
  }

  lemma ReplacingElsewhere(attrs: seq<Attribute>, kind: byte, value: Value, other: byte)
    requires kind != other
    ensures Has(Replaced(attrs, kind, value), other) == Has(attrs, other)
    ensures Has(attrs, other) ==>
      && Spot(Replaced(attrs, kind, value), other) == Spot(attrs, other)
      && Replaced(attrs, kind, value)[Spot(attrs, other)] == attrs[Spot(attrs, other)]
  {
    if Has(attrs, kind) {
      var i := Spot(attrs, kind);
      assert Visible(attrs[i := Attribute(kind, value)]) == Visible(attrs)[i := Attribute(kind, value)];
      FirstOfUpdated(Visible(attrs), i, Attribute(kind, value), other);
    }
  }

  lemma {:induction false} FirstOfUpdated(attrs: seq<Attribute>, i: nat, a: Attribute, other: byte)
    requires i < |attrs| && a.kind == attrs[i].kind != other
    ensures FirstOf(attrs[i := a], other) == FirstOf(attrs, other)
  {
    if i == 0 {
      assert attrs[0 := a][1..] == attrs[1..];
    } else {
      assert attrs[i := a][1..] == attrs[1..][i - 1 := a];
      FirstOfUpdated(attrs[1..], i - 1, a, other);
    }
  }

  /** What is built from a stored list, attribute by attribute: the first visible status says 2, the
      timestamp, the first visible one or a new one, says when, Acct-Terminate-Cause 2 is last, and the
      rest, other statuses among it, is as stored. From up to 23 attributes, whoever parses it sees all. */
  lemma StopIsEdited(attrs: seq<Attribute>, time: nat)
    requires time < TWO_32 && NumbersFit(attrs)
    ensures var stop, stamped := StopList(attrs, time), Has(attrs, EVENT_TIMESTAMP);
      var stamp := if stamped then Spot(attrs, EVENT_TIMESTAMP) else |attrs|;
      && |stop| == |attrs| + (if stamped then 1 else 2)
      && (|attrs| <= 23 ==> Visible(stop) == stop)
      && (Has(attrs, ACCT_STATUS_TYPE) ==>
            var first := Spot(attrs, ACCT_STATUS_TYPE);
            stop[first] == Attribute(ACCT_STATUS_TYPE, [0, 0, 0, 2] + attrs[first].value[4..]))
      && stop[stamp].kind == EVENT_TIMESTAMP && StandsFor(stop[stamp].value, time)
      && stop[stamp].value[4..] == (if stamped then attrs[stamp].value[4..] else [])
      && stop[|stop| - 1] == Attribute(ACCT_TERMINATE_CAUSE, [0, 0, 0, 2])
      && forall i | 0 <= i < |attrs| && (Has(attrs, ACCT_STATUS_TYPE) ==> i != Spot(attrs, ACCT_STATUS_TYPE))
                    && (stamped ==> i != stamp) :: stop[i] == attrs[i]
  {
    StatusElsewhere(attrs);
    assert BigEndian(2) == [0, 0, 0, 2];
    hide FirstOf;
  }

  /* ---------- packets ---------- */

  /** There is room for what is added, and the numbers that are written over have their octets. */
  ghost predicate StopFits(p: Image) {
    ImageWellFormed(p) && |ImageArea(p)| + 12 < AREA_SIZE && NumbersFit(ImageContents(p))
  }

  lemma NoPacketFits()
    ensures StopFits(NoPacket()) && ImageContents(NoPacket()) == []
  {
    assert ImageArea(NoPacket()) == [];
  }

  /** The packet q is what is built to stop a session whose last packet was p. */
  ghost predicate IsBuilt(p: Image, time: nat, route: Route, md5: Octets -> Digest, q: Image)
    requires StopFits(p) && time < TWO_32
  {
    && ImageWellFormed(q)
    && ImageContents(q) == StopList(ImageContents(p), time)
    && q.code == p.code && q.identifier == (p.identifier + 1) % 0x100 && q.rawLength == q.size
    && q.authenticator == match route
                          case Pool(secret) => md5(Header(q.code, q.identifier, q.size, ZEROS) + ImageArea(q) + secret)
                          case _ => p.authenticator
  }

  /** The three edits that turn a stored packet into a Stop. */
  method EditStop(packet: Packet, time: nat)
    requires packet.WellFormed() && |packet.Area()| + 12 < AREA_SIZE && NumbersFit(packet.Contents()) && time < TWO_32
    modifies packet`size, packet`rawLength, packet`valid, packet`attrs, packet.attributes
    ensures packet.WellFormed() && packet.rawLength == packet.size >= ATTRIBUTE_OFFSET
    ensures packet.Contents() == StopList(old(packet.Contents()), time)
  {
    hide Decode, Layout, Visible, FirstOf, BigEndian, Overwritten, ReplacedNumber, ReplacedOrAdded, Has, Spot;
    ghost var contents := packet.Contents();
    packet.ReplaceNumber(ACCT_STATUS_TYPE, STATUS_STOP);
    StatusElsewhere(contents);
    packet.ReplaceOrAddNumber(EVENT_TIMESTAMP, time);
    packet.AppendNumber(ACCT_TERMINATE_CAUSE, LOST_CARRIER);
  }

  /* ---------- which of them read as a Stop ---------- */

  /** The packet is read as a Stop: its last Acct-Status-Type says 2. */
  ghost predicate ReadsAsStop(q: Image) {
    StatusLegible(q.attributes, q.attrs) && Status(q.attributes, q.attrs) == STATUS_STOP
  }

  /** The last visible Acct-Status-Type, where there is one. */
  function LastSpot(attrs: seq<Attribute>): (i: nat)
    requires Has(attrs, ACCT_STATUS_TYPE)
    ensures i < |attrs| && attrs[i].kind == ACCT_STATUS_TYPE
  {
    assert Visible(attrs)[Spot(attrs, ACCT_STATUS_TYPE)].kind == ACCT_STATUS_TYPE;
    LastAmong(Visible(attrs), ACCT_STATUS_TYPE).value
  }

  /** The edits change no status but the first, and add none. */
  lemma StopKeepsOthers(attrs: seq<Attribute>, time: nat)
    requires time < TWO_32 && NumbersFit(attrs)
    ensures var before, after := Visible(attrs), Visible(StopList(attrs, time));
      && |before| <= |after|
      && (forall i | 0 <= i < |before| :: after[i].kind == before[i].kind)
      && (forall i | |before| <= i < |after| :: after[i].kind != ACCT_STATUS_TYPE)
      && (Has(attrs, ACCT_STATUS_TYPE) ==>
            var first := Spot(attrs, ACCT_STATUS_TYPE);
            after[first].value == Overwritten(attrs[first].value, STATUS_STOP))
      && (forall i | 0 <= i < |before| && before[i].kind == ACCT_STATUS_TYPE && i != Spot(attrs, ACCT_STATUS_TYPE) ::
            after[i] == before[i])
  {
    StatusElsewhere(attrs);
    hide Overwritten, FirstOf, BigEndian;
  }

  lemma StopKeepsLast(attrs: seq<Attribute>, time: nat)
    requires time < TWO_32 && NumbersFit(attrs)
    ensures LastAmong(Visible(StopList(attrs, time)), ACCT_STATUS_TYPE) == LastAmong(Visible(attrs), ACCT_STATUS_TYPE)
    ensures LastAmong(Visible(attrs), ACCT_STATUS_TYPE) == None <==> !Has(attrs, ACCT_STATUS_TYPE)
  {
    StopKeepsOthers(attrs, time);
    hide StopList, LastAmong;
  }

  /** The fourth octet of a value, as section 5.1 of RFC 2866 has it, or what is in its place behind a
      value that is too short. */
  ghost predicate FourthIsStop(q: Image, i: nat)
    requires i < |q.attrs|
  {
    q.attrs[i].pos + 3 < |q.attributes| && q.attributes[q.attrs[i].pos + 3] == STATUS_STOP
  }

  /** Behind every status of what is built there are the six octets of Acct-Terminate-Cause. */
  lemma SixBehind(attrs: seq<Attribute>, time: nat, i: nat)
    requires time < TWO_32 && NumbersFit(attrs) && i < |StopList(attrs, time)|
    requires StopList(attrs, time)[i].kind == ACCT_STATUS_TYPE
    ensures |Serialize(StopList(attrs, time)[i + 1..])| >= 6
  {
    var stop := StopList(attrs, time);
    var cause := stop[|stop| - 1];
    assert cause == Attribute(ACCT_TERMINATE_CAUSE, BigEndian(LOST_CARRIER));
    hide StopList;
    assert stop[i + 1..] == stop[i + 1..|stop| - 1] + [cause];
    SerializeConcat(stop[i + 1..|stop| - 1], [cause]);
    assert [cause][1..] == [];
  }

  /** Where the fourth octet of a status of a well-formed packet is. */
  lemma FourthOctet(q: Image, i: nat)
    requires ImageWellFormed(q) && i < |q.attrs|
    requires |Serialize(ImageContents(q)[i + 1..])| >= 6
    ensures q.attrs[i].kind == ImageContents(q)[i].kind && q.attrs[i].pos + 3 < |q.attributes|
    ensures |ImageContents(q)[i].value| >= 4 ==>
      q.attributes[q.attrs[i].pos + 3] == ImageContents(q)[i].value[3]
  {
    hide Decode, Layout, Serialize;
    Located(ImageArea(q), ImageContents(q), i);
    if |ImageContents(q)[i].value| >= 4 {
      FourthOfValue(q, i);
    }
  }

  lemma FourthOfValue(q: Image, i: nat)
    requires ImageWellFormed(q) && i < |q.attrs| && |ImageContents(q)[i].value| >= 4
    ensures q.attrs[i].pos + 3 < |q.attributes|
    ensures q.attributes[q.attrs[i].pos + 3] == ImageContents(q)[i].value[3]
  {
    var area, contents := ImageArea(q), ImageContents(q);
    hide Decode, Layout, Serialize;
    Located(area, contents, i);
    var d, a := q.attrs[i], contents[i];
    ValueAt(Serialize(contents[..i]), a, Serialize(contents[i + 1..]), 3);
    assert area[d.pos + 3..d.pos + |a.value|][0] == a.value[3..][0];
  }

  /** What is built is read as a Stop if and only if the stored packet has a visible Acct-Status-Type,
      and either it has no other one or the last one says so already. */
  lemma StopReads(p: Image, time: nat, route: Route, md5: Octets -> Digest, q: Image)
    requires StopFits(p) && time < TWO_32 && IsBuilt(p, time, route, md5, q)
    ensures var attrs := ImageContents(p);
      && (ReadsAsStop(q) <==>
            Has(attrs, ACCT_STATUS_TYPE)
            && (LastSpot(attrs) == Spot(attrs, ACCT_STATUS_TYPE)
                || (LastSpot(attrs) < |q.attrs| && FourthIsStop(q, LastSpot(attrs)))))
      && (Has(attrs, ACCT_STATUS_TYPE) && LastSpot(attrs) != Spot(attrs, ACCT_STATUS_TYPE)
          && |attrs[LastSpot(attrs)].value| >= 4 ==>
            LastSpot(attrs) < |q.attrs|
            && (FourthIsStop(q, LastSpot(attrs)) <==> attrs[LastSpot(attrs)].value[3] == STATUS_STOP))
  {
    var attrs := ImageContents(p);
    StopKeepsLast(attrs, time);
    StatusesAreLegible(p, time, route, md5, q);
    ReadsLast(q, Visible(ImageContents(q)));
    if Has(attrs, ACCT_STATUS_TYPE) {
      LastIsFourth(p, time, route, md5, q);
    }
    hide StopList, Decode, Layout, LastAmong, FirstOf, NumbersFit, ReadsAsStop, FourthIsStop, Spot, Has;
  }

  /** Reading a packet as a Stop is looking at its last status. */
  lemma ReadsLast(q: Image, seen: seq<Attribute>)
    requires q.attrs == Layout(seen, 0) && StatusLegible(q.attributes, q.attrs)
    ensures var last := LastAmong(seen, ACCT_STATUS_TYPE);
      ReadsAsStop(q) <==> last.Some? && FourthIsStop(q, last.value)
  {
    LastOfLayout(seen, ACCT_STATUS_TYPE);
    hide Layout, LastAmong, LastOf;
  }

  /** The last status, before and after the edits. */
  lemma LastInStop(attrs: seq<Attribute>, time: nat)
    requires time < TWO_32 && NumbersFit(attrs) && Has(attrs, ACCT_STATUS_TYPE)
    ensures var last, stop := LastSpot(attrs), StopList(attrs, time);
      && last < |Visible(stop)| && stop[last].kind == ACCT_STATUS_TYPE
      && (last == Spot(attrs, ACCT_STATUS_TYPE) ==> |stop[last].value| >= 4 && stop[last].value[3] == STATUS_STOP)
      && (last != Spot(attrs, ACCT_STATUS_TYPE) ==> stop[last] == attrs[last])
  {
    StopKeepsOthers(attrs, time);
    assert LastSpot(attrs) < |Visible(attrs)|;
    hide StopList, LastAmong, FirstOf, NumbersFit;
  }

  lemma LastIsFourth(p: Image, time: nat, route: Route, md5: Octets -> Digest, q: Image)
    requires StopFits(p) && time < TWO_32 && IsBuilt(p, time, route, md5, q)
    requires Has(ImageContents(p), ACCT_STATUS_TYPE)
    ensures var attrs := ImageContents(p);
      var last := LastSpot(attrs);
      && last < |q.attrs|
      && (last == Spot(attrs, ACCT_STATUS_TYPE) ==> FourthIsStop(q, last))
      && (last != Spot(attrs, ACCT_STATUS_TYPE) && |attrs[last].value| >= 4 ==>
            (FourthIsStop(q, last) <==> attrs[last].value[3] == STATUS_STOP))
  {
    var attrs := ImageContents(p);
    var last := LastSpot(attrs);
    LastInStop(attrs, time);
    assert last < |q.attrs|;
    SixBehind(attrs, time, last);
    FourthOctet(q, last);
    hide StopList, Decode, Layout, LastAmong, FirstOf, NumbersFit, ImageWellFormed, Visible, LastSpot, Spot, Has;
  }

  lemma StatusesAreLegible(p: Image, time: nat, route: Route, md5: Octets -> Digest, q: Image)
    requires StopFits(p) && time < TWO_32 && IsBuilt(p, time, route, md5, q)
    ensures StatusLegible(q.attributes, q.attrs)
  {
    hide Layout, Decode, StopList;
    forall d | d in q.attrs && d.kind == ACCT_STATUS_TYPE
      ensures d.pos + 3 < |q.attributes|
    {
      var i :| 0 <= i < |q.attrs| && q.attrs[i] == d;
      LayoutAt(Visible(ImageContents(q)), 0, i);
      SixBehind(ImageContents(p), time, i);
      FourthOctet(q, i);
    }
  }

  /** The last status has its four octets, which section 5.1 of RFC 2866 asks of every one. */
  predicate LastFits(attrs: seq<Attribute>) {
    Has(attrs, ACCT_STATUS_TYPE) ==> |attrs[LastSpot(attrs)].value| >= 4
  }

  /** There is a status to be edited, and no later one that says otherwise. */
  predicate CanSayStop(attrs: seq<Attribute>)
    requires LastFits(attrs)
  {
    && Has(attrs, ACCT_STATUS_TYPE)
    && (LastSpot(attrs) == Spot(attrs, ACCT_STATUS_TYPE) || attrs[LastSpot(attrs)].value[3] == STATUS_STOP)
  }

  /** Exactly one status is visible. */
  predicate OneStatus(attrs: seq<Attribute>) {
    Has(attrs, ACCT_STATUS_TYPE) && LastSpot(attrs) == Spot(attrs, ACCT_STATUS_TYPE)
  }

  /** Where all statuses have their octets, the stored packet alone decides. */
  lemma StopReadsIfItCan(p: Image, time: nat, route: Route, md5: Octets -> Digest, q: Image)
    requires StopFits(p) && time < TWO_32 && IsBuilt(p, time, route, md5, q) && LastFits(ImageContents(p))
    ensures ReadsAsStop(q) <==> CanSayStop(ImageContents(p))
  {
    StopReads(p, time, route, md5, q);
    hide IsBuilt, StopFits, FourthIsStop, ReadsAsStop, LastSpot;
  }

  /** The status that the tracker reads in a well-formed packet. */
  lemma StatusRead(p: Image)
    requires StopFits(p) && LastFits(ImageContents(p)) && StatusLegible(p.attributes, p.attrs)
    ensures var attrs := ImageContents(p);
      Status(p.attributes, p.attrs) == if Has(attrs, ACCT_STATUS_TYPE) then attrs[LastSpot(attrs)].value[3] else 0
  {
    var attrs := ImageContents(p);
    LastOfLayout(Visible(attrs), ACCT_STATUS_TYPE);
    NoneAmong(attrs);
    if Has(attrs, ACCT_STATUS_TYPE) {
      FourthOfValue(p, LastSpot(attrs));
    }
    hide Layout, Decode, LastOf, LastAmong, Has, NumbersFit, Visible;
  }

  lemma NoneAmong(attrs: seq<Attribute>)
    ensures LastAmong(Visible(attrs), ACCT_STATUS_TYPE) == None <==> !Has(attrs, ACCT_STATUS_TYPE)
  {
    hide LastAmong;
  }

  /** The packet of a session that only an authentication made gets code 0 and no status. */
  lemma NoPacketGetsNoStop(time: nat, route: Route, md5: Octets -> Digest, q: Image)
    requires StopFits(NoPacket()) && time < TWO_32 && IsBuilt(NoPacket(), time, route, md5, q)
    ensures q.code == 0 && !ReadsAsStop(q)
  {
    NoPacketFits();
    StopReads(NoPacket(), time, route, md5, q);
  }

  /** Two statuses, of which the first is edited: whoever takes the last one reads 3. */
  lemma SecondStatusStays(time: nat)
    requires time < TWO_32
    ensures var attrs := [Attribute(ACCT_STATUS_TYPE, [0, 0, 0, 1]), Attribute(ACCT_STATUS_TYPE, [0, 0, 0, 3])];
      && NumbersFit(attrs) && LastFits(attrs) && !CanSayStop(attrs)
      && StopList(attrs, time)[..2]
         == [Attribute(ACCT_STATUS_TYPE, [0, 0, 0, 2]), Attribute(ACCT_STATUS_TYPE, [0, 0, 0, 3])]
  {
    var attrs := [Attribute(ACCT_STATUS_TYPE, [0, 0, 0, 1]), Attribute(ACCT_STATUS_TYPE, [0, 0, 0, 3])];
    assert Visible(attrs) == attrs;
    assert FirstOf(attrs, ACCT_STATUS_TYPE) == 0;
    assert FirstOf(attrs, EVENT_TIMESTAMP) == 2;
    assert LastAmong(attrs, ACCT_STATUS_TYPE) == Some(1);
    assert Overwritten([0, 0, 0, 1], 2) == [0, 0, 0, 2];
    var marked := ReplacedNumber(attrs, ACCT_STATUS_TYPE, STATUS_STOP);
    assert marked == [Attribute(ACCT_STATUS_TYPE, [0, 0, 0, 2]), attrs[1]];
    StatusElsewhere(attrs);
  }

  /** A packet is read as a Stop where the one it was built from can be made to say so. */
  ghost predicate StopsIfItCan(p: Image, q: Image)
    requires ImageWellFormed(p)
  {
    LastFits(ImageContents(p)) ==> (ReadsAsStop(q) <==> CanSayStop(ImageContents(p)))
  }

  method BuildStop(p: Image, time: nat, route: Route, md5: Octets -> Digest) returns (q: Image)
    requires StopFits(p) && time < TWO_32
    ensures IsBuilt(p, time, route, md5, q) && StopsIfItCan(p, q)
  {
    hide Decode, Layout, Visible, StopList, NumbersFit, Header, LastFits, CanSayStop, ReadsAsStop;
    var packet := new Packet.Copy(p);
    packet.identifier := (packet.identifier as int + 1) % 0x100;
    EditStop(packet, time);
    if route.Pool? {
      packet.RecomputeAuthenticator(route.secret, md5);
    }
    q := packet.Snapshot();
    if LastFits(ImageContents(p)) {
      StopReadsIfItCan(p, time, route, md5, q);
    }
  }
}
