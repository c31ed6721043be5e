/** The status messages that the gateway builds for RADIUS servers, and how it knows their replies. */
module RadiusOutput {
  import opened Common
  import opened RadiusWire
  import opened RadiusPacket

  const STATUS_SERVER: byte := 12
  const PROXY_STATE: byte := 33

  /** A colon, which the tokens of a reply are cut at. */
  const COLON: byte := 58

  /** "status" */
  const STATUS: Octets := [115, 116, 97, 116, 117, 115]

  function ProxyState(source: Octets): Octets {
    STATUS + [COLON] + source
  }

  function Tokens(s: Octets): (tokens: seq<Octets>)
    ensures |tokens| >= 1
  {
    if s == [] then [[]]
    else
      var rest := Tokens(s[1..]);
      if s[0] == COLON then [[]] + rest else [[s[0]] + rest[0]] + rest[1..]
  }

  /** The server that a Proxy-State value names, if it is one of ours. */
  function ReplySource(value: Octets): Option<Octets> {
    var tokens := Tokens(value);
    if |tokens| == 2 && tokens[0] == STATUS then Some(tokens[1]) else None
  }

  /** The attributes of a status message. */
  function StatusList(source: Octets, digest: Digest): seq<Attribute>
    requires |ProxyState(source)| <= 253
  {
    [Attribute(PROXY_STATE, ProxyState(source)), Attribute(MESSAGE_AUTHENTICATOR, digest)]
  }

  class OutputPacket {
    var code: byte
    var identifier: byte
    var rawLength: nat
    var authenticator: Digest
    const attributes: array<byte>
    var length: nat
    const secret: Octets

    constructor (secret: Octets)
      ensures fresh(attributes) && attributes.Length == AREA_SIZE && length == 0 && this.secret == secret
    {
      code, identifier, rawLength, authenticator, length := 0, 0, 0, ZEROS, 0;
      attributes := new byte[AREA_SIZE](_ => 0);
      this.secret := secret;
    }

    ghost function Area(): Octets
      requires length <= attributes.Length
      reads this, attributes
    {
      attributes[..][..length]
    }

    method AddAttribute(kind: byte, data: Value)
      requires attributes.Length == AREA_SIZE && length + 2 + |data| <= AREA_SIZE
      modifies this`length, attributes
      ensures length == old(length) + 2 + |data|
      ensures Area() == old(Area()) + Wire(Attribute(kind, data))
    {
      ghost var bytes := attributes[..];
      Put(attributes, length, kind);
      length := length + 1;
      Put(attributes, length, |data| + 2);
      length := length + 1;
      MemCopy(attributes, length, data);
      AppendOctets(bytes, length - 2, kind, data);
      length := length + |data|;
    }

    /** The last attribute is the digest of the packet taken while its value is zero, as section 5.14
        of RFC 2869 asks for. */
    method MakeStatusMessage(source: Octets, newIdentifier: byte, newAuthenticator: Digest, hmac: Mac)
      requires attributes.Length == AREA_SIZE && length == 0 && |ProxyState(source)| <= 253
      modifies this, attributes
      ensures code == STATUS_SERVER && identifier == newIdentifier && authenticator == newAuthenticator
      ensures length <= 273 && rawLength == ATTRIBUTE_OFFSET + length
      ensures var blank := Serialize(StatusList(source, ZEROS));
        var digest := hmac(secret, Header(code, identifier, rawLength, authenticator) + blank);
        Area() == Serialize(StatusList(source, digest))
    {
      hide Wire, Serialize, Header;
      code, identifier, authenticator := STATUS_SERVER, newIdentifier, newAuthenticator;
      var fullSource := ProxyState(source);
      AddAttribute(PROXY_STATE, fullSource);
      AddAttribute(MESSAGE_AUTHENTICATOR, ZEROS);
      var packetLength := 1 + 1 + 2 + 16 + length;
      rawLength := packetLength;
      TwoAttributes(source, ZEROS);
      var text := Header(code, identifier, rawLength, authenticator) + attributes[..packetLength - ATTRIBUTE_OFFSET];
      var digest := hmac(secret, text);
      var offset := |fullSource| + 2;
      ghost var bytes := attributes[..];
      MemCopy(attributes, offset + 1 + 1, digest);
      TwoAttributes(source, digest);
      DigestInPlace(bytes, source, digest);
    }
  }

  lemma TwoAttributes(source: Octets, digest: Digest)
    requires |ProxyState(source)| <= 253
    ensures Serialize(StatusList(source, digest))
         == Wire(Attribute(PROXY_STATE, ProxyState(source))) + Wire(Attribute(MESSAGE_AUTHENTICATOR, digest))
    ensures |Serialize(StatusList(source, digest))| == |ProxyState(source)| + 20
  {
    var list := StatusList(source, digest);
    assert list[1..] == [list[1]] && list[1..][1..] == [];
    assert Serialize([]) == [];
    assert Serialize(list[1..]) == Wire(list[1]) + [];
  }

  /** The digest goes exactly over the zeros. */
  lemma DigestInPlace(bytes: Octets, source: Octets, digest: Digest)
    requires |ProxyState(source)| <= 253 && |ProxyState(source)| + 20 <= |bytes|
    requires bytes[..|ProxyState(source)| + 20] == Serialize(StatusList(source, ZEROS))
    ensures Copied(bytes, |ProxyState(source)| + 4, digest)[..|ProxyState(source)| + 20]
      == Serialize(StatusList(source, digest))
  {
    TwoAttributes(source, ZEROS);
    TwoAttributes(source, digest);
    hide Serialize, StatusList;
    var n := |ProxyState(source)|;
    assert bytes[..n + 4] == bytes[..n + 20][..n + 4];
  }

  lemma {:induction false} TokensWithoutColon(s: Octets)
    ensures COLON !in s <==> Tokens(s) == [s]
    ensures COLON in s <==> |Tokens(s)| > 1
  {
    if s != [] {
      TokensWithoutColon(s[1..]);
      assert s == [s[0]] + s[1..];
    }
  }

  lemma {:induction false} TokensAfterWord(word: Octets, s: Octets)
    requires COLON !in word
    ensures Tokens(word + [COLON] + s) == [word] + Tokens(s)
  {
    var all := word + [COLON] + s;
    if word == [] {
      assert all[1..] == s;
    } else {
      assert all[1..] == word[1..] + [COLON] + s;
      TokensAfterWord(word[1..], s);
      assert [word[0]] + word[1..] == word;
    }
  }

  /** The server that a packet comes from: what the first Proxy-State the parser kept names. */
  function Sender(contents: seq<Attribute>): Option<Octets> {
    if Has(contents, PROXY_STATE) then ReplySource(contents[Spot(contents, PROXY_STATE)].value) else None
  }

  method IsStatusMessageReply(p: Image) returns (source: Option<Octets>)
    requires ImageWellFormed(p)
    ensures source == Sender(ImageContents(p))
  {
    hide Decode, Serialize, Layout, Tokens;
    ghost var contents := ImageContents(p);
    var i := 0;
    while i < |p.attrs|
      invariant i <= |p.attrs|
      invariant forall j | 0 <= j < i :: p.attrs[j].kind != PROXY_STATE
    {
      var d := p.attrs[i];
      if d.kind == PROXY_STATE {
        LookupIsFirst(contents, PROXY_STATE, i);
        Located(ImageArea(p), contents, i);
        ValueAt(Serialize(contents[..i]), contents[i], Serialize(contents[i + 1..]), 0);
        var value := p.attributes[d.pos..d.pos + d.len];
        assert value == ImageArea(p)[d.pos..d.pos + d.len] == contents[i].value;
        var parts := Tokens(value);
        return if |parts| == 2 && parts[0] == STATUS then Some(parts[1]) else None;
      }
      i := i + 1;
    }
    LookupIsFirst(contents, PROXY_STATE, i);
    return None;
  }

  /** A packet whose first Proxy-State is the one of a status message is known by the name of its
      server again exactly when there is no colon in the name, whatever surrounds it. */
  lemma ReplyIsRecognised(contents: seq<Attribute>, source: Octets)
    requires Has(contents, PROXY_STATE) && contents[Spot(contents, PROXY_STATE)].value == ProxyState(source)
    ensures Sender(contents) == if COLON in source then None else Some(source)
  {
    TokensAfterWord(STATUS, source);
    TokensWithoutColon(source);
  }

  /** Whoever parses a status message finds two attributes: first the text "status:" and the name of the
      server, then the digest. */
  lemma StatusMessageParses(buffer: Octets, source: Octets, digest: Digest)
    requires |ProxyState(source)| <= 253 && |Serialize(StatusList(source, digest))| < |buffer| <= AREA_SIZE
    requires buffer[..|Serialize(StatusList(source, digest))|] == Serialize(StatusList(source, digest))
    ensures Parse(buffer, |Serialize(StatusList(source, digest))|)
      == ParseResult(true, Layout(StatusList(source, digest), 0))
    ensures StatusList(source, digest) == [Attribute(33, Text("status:") + source), Attribute(80, digest)]
  {
    ParseRoundTrip(buffer, StatusList(source, digest));
    assert Visible(StatusList(source, digest)) == StatusList(source, digest);
    assert Text("status:") == STATUS + [COLON];
  }

  /** The octets of a text. */
  function Text(s: string): Octets
  {
    seq(|s|, i requires 0 <= i < |s| => s[i] as int % 0x100)
  }
}
