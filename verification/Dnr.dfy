/** DHCPv4 encrypted-resolver options: the encoder.

    The option has the form of section 5.1 of RFC 9463, with names as in section 3.1 of
    RFC 1035 and service parameters as in section 2.2 of RFC 9460. */
module Dnr {
  import opened Bits
  import opened DnrNames
  import opened Options
  import opened Text

  type Bytes = seq<Byte>

  datatype Ipv4 = Ipv4(a: Byte, b: Byte, c: Byte, d: Byte)

  datatype Param = Param(key: nat, value: Bytes)

  const ALPN := 1
  const PORT := 3
  const DOHPATH := 7

  // -------------------------------------------------------------- wire forms

  function CharByte(c: char): Byte
    requires c < '\U{80}'
  {
    c as int
  }

  function AsBytes(s: string): (r: Bytes)
    requires Ascii(s)
    ensures |r| == |s| && forall i :: 0 <= i < |s| ==> r[i] == s[i] as int
  {
    seq(|s|, i requires 0 <= i < |s| =>
      assert s[i] in s; CharByte(s[i]))
  }

  predicate Encodable(part: string) {
    0 < |part| <= 63 && Ascii(part)
  }

  function LabelWire(part: string): Bytes
    requires Encodable(part)
  {
    [|part|] + AsBytes(part)
  }

  function NameWire(labels: seq<string>): Bytes
    requires forall part <- labels :: Encodable(part)
  {
    if labels == [] then [] else LabelWire(labels[0]) + NameWire(labels[1..])
  }

  predicate ParamFits(p: Param) {
    p.key < 0x1_0000 && |p.value| < 0x1_0000
  }

  function ParamWire(p: Param): Bytes
    requires ParamFits(p)
  {
    Put16(p.key) + Put16(|p.value|) + p.value
  }

  function AddrWire(addrs: seq<Ipv4>): (s: Bytes)
    ensures |s| == 4 * |addrs|
  {
    if addrs == [] then [] else [addrs[0].a, addrs[0].b, addrs[0].c, addrs[0].d] + AddrWire(addrs[1..])
  }

  lemma LabelsEncodable(name: string)
    requires NormalName(name)
    ensures forall part <- Labels(name) :: Encodable(part)
  {
    forall part | part in Labels(name)
      ensures Encodable(part)
    {
      assert LabelOk(part);
    }
  }

  /** The three parameters of an instance, in ascending key order. */
  function DohParams(port: nat, template: string): (ps: seq<Param>)
    requires port < 0x1_0000 && Ascii(template)
  {
    [Param(ALPN, [2, 'h' as int, '2' as int]), Param(PORT, Put16(port)), Param(DOHPATH, AsBytes(template))]
  }

  function EncodedName(name: string): Option<Bytes> {
    match NormalizedDomain(name)
    case None => None
    case Some(n) =>
      NormalizedIsNormal(name);
      LabelsEncodable(n);
      Some(NameWire(Labels(n)) + [0])
  }

  lemma TemplateIsAscii(path: string)
    requires NormalizedPath(path).Some?
    ensures Ascii(NormalizedPath(path).value)
  {
    assert Ascii("{?dns}");
    hide Matched, GoodTemplate, Trim;
  }

  function EncodedParams(port: nat, path: string): Option<Bytes>
    requires port < 0x1_0000
  {
    match NormalizedPath(path)
    case None => None
    case Some(template) =>
      TemplateIsAscii(path);
      if |template| >= 0x1_0000 then None
      else
        var ps := DohParams(port, template);
        Some(ParamWire(ps[0]) + ParamWire(ps[1]) + ParamWire(ps[2]))
  }

  /** An instance without its length: priority 1, name, addresses, parameters. */
  function Body(adn: Bytes, addrs: seq<Ipv4>, params: Bytes): Bytes
    requires |adn| < 256 && 4 * |addrs| < 256
  {
    Put16(1) + [|adn|] + adn + [4 * |addrs|] + AddrWire(addrs) + params
  }

  function EncodedInstance(domain: string, addrs: seq<Ipv4>, port: nat, path: string): Option<Bytes>
    requires port < 0x1_0000
  {
    if addrs == [] then None
    else match (EncodedName(domain), EncodedParams(port, path))
      case (Some(adn), Some(params)) =>
        if |adn| > 255 || 4 * |addrs| > 255 then None
        else
          var body := Body(adn, addrs, params);
          if |body| > 0xFFFF then None else Some(Put16(|body|) + body)
      case _ => None
  }

  // ------------------------------------------------------------ the encoders

  method EncodeDnsName(name: string) returns (r: Option<Bytes>)
    ensures r == EncodedName(name)
  {
    hide NameWire;
    var normal := NormalizedDomain(name);
    if normal.None? {
      return None;
    }
    NormalizedIsNormal(name);
    LabelsEncodable(normal.value);
    var bytes := WriteLabels(Labels(normal.value));
    r := Some(bytes + [0]);
  }

  method WriteLabels(labels: seq<string>) returns (bytes: Bytes)
    requires forall part <- labels :: Encodable(part)
    ensures bytes == NameWire(labels)
  {
    bytes := [];
    assert labels[0..] == labels;
    hide NameWire, Encodable;
    for i := 0 to |labels|
      invariant bytes + NameWire(labels[i..]) == NameWire(labels)
    {
      var part := labels[i];
      assert part in labels;
      OneMoreLabel(labels, i, bytes);
      bytes := bytes + [|part|];
      bytes := bytes + AsBytes(part);
    }
    NoMoreLabels(labels, bytes);
  }

  lemma OneMoreLabel(labels: seq<string>, i: nat, bytes: Bytes)
    requires (forall part <- labels :: Encodable(part)) && i < |labels|
    ensures Encodable(labels[i])
    ensures bytes + [|labels[i]|] + AsBytes(labels[i]) + NameWire(labels[i + 1..]) == bytes + NameWire(labels[i..])
  {
    assert labels[i] in labels;
    assert labels[i..][0] == labels[i] && labels[i..][1..] == labels[i + 1..];
    var rest, wire := NameWire(labels[i + 1..]), LabelWire(labels[i]);
    assert NameWire(labels[i..]) == wire + rest;
    assert bytes + [|labels[i]|] + AsBytes(labels[i]) == bytes + wire;
    hide NameWire, LabelWire, AsBytes;
    assert bytes + wire + rest == bytes + (wire + rest);
  }

  lemma NoMoreLabels(labels: seq<string>, bytes: Bytes)
    requires forall part <- labels :: Encodable(part)
    ensures bytes + NameWire(labels[|labels|..]) == bytes
  {
  }

  method AppendSvcParam(params: Bytes, key: nat, value: Bytes) returns (r: Option<Bytes>)
    requires key < 0x1_0000
    ensures r == if |value| > 0xFFFF then None else Some(params + ParamWire(Param(key, value)))
  {
    if |value| > 0xFFFF {
      return None;
    }
    var out := params + Put16(key);
    out := out + Put16(|value|);
    out := out + value;
    assert out == params + ParamWire(Param(key, value));
    r := Some(out);
  }

  method EncodeDohSvcParams(port: nat, path: string) returns (r: Option<Bytes>)
    requires port < 0x1_0000
    ensures r == EncodedParams(port, path)
  {
    hide ParamWire, NormalizedPath;
    var template := NormalizeDohPathTemplate(path);
    if template.None? {
      return None;
    }
    TemplateIsAscii(path);
    var alpn := AppendSvcParam([], ALPN, [2, 'h' as int, '2' as int]);
    assert alpn.value == ParamWire(Param(ALPN, [2, 'h' as int, '2' as int]));
    var withPort := AppendSvcParam(alpn.value, PORT, Put16(port));
    r := AppendSvcParam(withPort.value, DOHPATH, AsBytes(template.value));
  }

  method EncodeInstance(domain: string, addrs: seq<Ipv4>, port: nat, path: string) returns (r: Option<Bytes>)
    requires port < 0x1_0000
    ensures r == EncodedInstance(domain, addrs, port, path)
  {
    hide EncodedName, EncodedParams;
    if addrs == [] {
      return None;
    }
    var adn := EncodeDnsName(domain);
    if adn.None? {
      return None;
    }
    var params := EncodeDohSvcParams(port, path);
    if params.None? {
      return None;
    }
    var addrLen := 4 * |addrs|;
    if |adn.value| > 255 || addrLen > 255 {
      return None;
    }
    var length := 2 + 1 + |adn.value| + 1 + addrLen + |params.value|;
    if length > 0xFFFF {
      return None;
    }
    var head := Put16(1) + [|adn.value|] + adn.value + [addrLen];
    var bytes := Put16(length) + head;
    for i := 0 to |addrs|
      invariant bytes + AddrWire(addrs[i..]) == Put16(length) + head + AddrWire(addrs)
    {
      var ip := addrs[i];
      assert addrs[i..][0] == ip && addrs[i..][1..] == addrs[i + 1..];
      bytes := bytes + [ip.a, ip.b, ip.c, ip.d];
    }
    assert bytes == Put16(length) + head + AddrWire(addrs);
    bytes := bytes + params.value;
    assert bytes == Put16(length) + Body(adn.value, addrs, params.value);
    r := Some(bytes);
  }

  /** What the truncating encoder keeps of the domains. */
  function Payload(domains: seq<string>, addrs: seq<Ipv4>, port: nat, path: string, maxLen: nat): (s: Bytes)
    requires port < 0x1_0000
    ensures |s| <= maxLen
  {
    if domains == [] then []
    else
      var before := Payload(domains[..|domains| - 1], addrs, port, path, maxLen);
      match EncodedInstance(domains[|domains| - 1], addrs, port, path)
      case None => before
      case Some(bytes) => if |before| + |bytes| > maxLen then before else before + bytes
  }

  method EncodePayloadTruncated(domains: seq<string>, addrs: seq<Ipv4>, port: nat, path: string, maxLen: nat)
    returns (payload: Bytes)
    requires port < 0x1_0000
    ensures payload == Payload(domains, addrs, port, path, maxLen)
  {
    hide EncodedInstance;
    payload := [];
    for i := 0 to |domains|
      invariant payload == Payload(domains[..i], addrs, port, path, maxLen)
    {
      assert domains[..i + 1][..i] == domains[..i];
      var bytes := EncodeInstance(domains[i], addrs, port, path);
      if bytes.None? {
        continue;
      }
      if |payload| + |bytes.value| > maxLen {
        continue;
      }
      payload := payload + bytes.value;
    }
    assert domains[..|domains|] == domains;
  }
}
