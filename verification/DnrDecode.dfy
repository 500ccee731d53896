/** What a client reads back from the encoded option, by section 5.1 of RFC 9463. */
module DnrDecode {
  import opened Bits
  import opened Dnr
  import opened DnrNames
  import opened Options
  import opened Text

  datatype Instance = Instance(priority: nat, labels: seq<Bytes>, addrs: seq<Ipv4>, params: seq<Param>)

  // -------------------------------------------------------------- the decoder

  /** A domain name and what follows it. */
  function ReadName(s: Bytes): Option<(seq<Bytes>, Bytes)> {
    if s == [] then None
    else if s[0] == 0 then Some(([], s[1..]))
    else if s[0] > 63 || |s| < 1 + s[0] then None
    else match ReadName(s[1 + s[0]..])
      case None => None
      case Some((labels, rest)) => Some(([s[1..1 + s[0]]] + labels, rest))
  }

  function ReadAddrs(s: Bytes): Option<seq<Ipv4>> {
    if s == [] then Some([])
    else if |s| < 4 then None
    else match ReadAddrs(s[4..])
      case None => None
      case Some(addrs) => Some([Ipv4(s[0], s[1], s[2], s[3])] + addrs)
  }

  /** Parameters with keys from `least` on, in strictly ascending order. */
  function ReadParams(s: Bytes, least: nat): Option<seq<Param>> {
    if s == [] then Some([])
    else if |s| < 4 then None
    else
      var key, len := U16(s[0], s[1]), U16(s[2], s[3]);
      if key < least || |s| < 4 + len then None
      else match ReadParams(s[4 + len..], key + 1)
        case None => None
        case Some(params) => Some([Param(key, s[4..4 + len])] + params)
  }

  function ReadBody(s: Bytes): Option<Instance> {
    if |s| < 3 || |s| < 4 + s[2] as nat then None
    else
      var priority, addrAt: nat := U16(s[0], s[1]), 3 + s[2] as nat;
      var paramsAt: nat := addrAt + 1 + s[addrAt] as nat;
      if |s| < paramsAt || s[addrAt] == 0 then None
      else match (ReadName(s[3..addrAt]), ReadAddrs(s[addrAt + 1..paramsAt]), ReadParams(s[paramsAt..], 0))
        case (Some((labels, rest)), Some(addrs), Some(params)) =>
          if rest == [] then Some(Instance(priority, labels, addrs, params)) else None
        case _ => None
  }

  function ReadPayload(s: Bytes): Option<seq<Instance>> {
    if s == [] then Some([])
    else if |s| < 2 || |s| < 2 + U16(s[0], s[1]) then None
    else
      var end := 2 + U16(s[0], s[1]);
      match (ReadBody(s[2..end]), ReadPayload(s[end..]))
      case (Some(instance), Some(rest)) => Some([instance] + rest)
      case _ => None
  }

  // ----------------------------------------------------------- what was meant

  ghost function LabelBytes(labels: seq<string>): (r: seq<Bytes>)
    requires forall part <- labels :: Encodable(part)
    ensures |r| == |labels|
    ensures forall i :: 0 <= i < |labels| ==> Encodable(labels[i]) && r[i] == AsBytes(labels[i])
  {
    if labels == [] then []
    else
      assert labels[0] in labels;
      assert Encodable(labels[0]);
      [AsBytes(labels[0])] + LabelBytes(labels[1..])
  }

  /** The normalized name, the addresses, and alpn, port and template. */
  ghost function Meant(domain: string, addrs: seq<Ipv4>, port: nat, path: string): Instance
    requires port < 0x1_0000 && EncodedInstance(domain, addrs, port, path).Some?
  {
    NormalizedIsNormal(domain);
    LabelsEncodable(NormalizedDomain(domain).value);
    TemplateIsAscii(path);
    Instance(1, LabelBytes(Labels(NormalizedDomain(domain).value)), addrs,
             DohParams(port, NormalizedPath(path).value))
  }

  // -------------------------------------------------------------- round trips

  lemma ReadLabel(part: string, rest: Bytes)
    requires Encodable(part)
    ensures ReadName(LabelWire(part) + rest) ==
            match ReadName(rest)
            case None => None
            case Some((labels, tail)) => Some(([AsBytes(part)] + labels, tail))
  {
    var s := LabelWire(part) + rest;
    assert s[0] == |part|;
    assert s[1..1 + |part|] == AsBytes(part);
    assert s[1 + |part|..] == rest;
  }

  lemma {:induction false} NameReadsBack(labels: seq<string>, rest: Bytes)
    requires forall part <- labels :: Encodable(part)
    ensures ReadName(NameWire(labels) + [0] + rest) == Some((LabelBytes(labels), rest))
  {
    if labels == [] {
      assert NameWire(labels) + [0] + rest == [0] + rest;
    } else {
      hide ReadName, LabelWire, Encodable;
      assert labels[0] in labels && forall part <- labels[1..] :: part in labels;
      NameReadsBack(labels[1..], rest);
      var wire, tail := LabelWire(labels[0]), NameWire(labels[1..]);
      var more := tail + [0] + rest;
      assert NameWire(labels) == wire + tail;
      hide NameWire;
      assert wire + tail + [0] + rest == wire + more;
      ReadLabel(labels[0], more);
    }
  }

  lemma {:induction false} AddrsReadBack(addrs: seq<Ipv4>)
    ensures ReadAddrs(AddrWire(addrs)) == Some(addrs)
  {
    if addrs != [] {
      var s := AddrWire(addrs);
      AddrsReadBack(addrs[1..]);
      assert s[4..] == AddrWire(addrs[1..]);
      assert addrs == [addrs[0]] + addrs[1..];
    }
  }

  lemma ReadParam(p: Param, rest: Bytes, least: nat)
    requires ParamFits(p) && least <= p.key
    ensures ReadParams(ParamWire(p) + rest, least) ==
            match ReadParams(rest, p.key + 1)
            case None => None
            case Some(params) => Some([p] + params)
  {
    var s := ParamWire(p) + rest;
    assert s[..2] == Put16(p.key) && s[2..4] == Put16(|p.value|);
    assert s[0] == s[..2][0] && s[1] == s[..2][1] && s[2] == s[2..4][0] && s[3] == s[2..4][1];
    assert s[4..4 + |p.value|] == p.value;
    assert s[4 + |p.value|..] == rest;
  }

  lemma ParamsReadBack(ps: seq<Param>)
    requires |ps| == 3 && (forall p <- ps :: ParamFits(p)) && ps[0].key < ps[1].key < ps[2].key
    ensures ReadParams(ParamWire(ps[0]) + ParamWire(ps[1]) + ParamWire(ps[2]), 0) == Some(ps)
  {
    hide ParamWire, ParamFits;
    var last := ParamWire(ps[2]);
    ReadParam(ps[2], [], ps[1].key + 1);
    assert last + [] == last;
    ReadParam(ps[1], last, ps[0].key + 1);
    ReadParam(ps[0], ParamWire(ps[1]) + last, 0);
    assert ParamWire(ps[0]) + ParamWire(ps[1]) + last == ParamWire(ps[0]) + (ParamWire(ps[1]) + last);
    assert [ps[0]] + ([ps[1]] + ([ps[2]] + [])) == ps;
  }

  lemma BodyParts(adn: Bytes, addrs: seq<Ipv4>, params: Bytes)
    requires |adn| < 256 && 0 < 4 * |addrs| < 256
    ensures var s, at := Body(adn, addrs, params), 3 + |adn|;
            && |s| == at + 1 + 4 * |addrs| + |params| && s[2] == |adn| && s[at] == 4 * |addrs|
            && U16(s[0], s[1]) == 1 && s[3..at] == adn
            && s[at + 1..at + 1 + 4 * |addrs|] == AddrWire(addrs)
            && s[at + 1 + 4 * |addrs|..] == params
  {
    hide AddrWire;
    var s := Body(adn, addrs, params);
    assert s[..2] == Put16(1);
    assert s[0] == s[..2][0] && s[1] == s[..2][1];
  }

  /** Names, addresses and parameters are read back from one body. */
  lemma BodyReadsBack(labels: seq<string>, addrs: seq<Ipv4>, ps: seq<Param>, adn: Bytes, params: Bytes)
    requires (forall part <- labels :: Encodable(part)) && adn == NameWire(labels) + [0] && |adn| < 256
    requires 0 < 4 * |addrs| < 256
    requires |ps| == 3 && (forall p <- ps :: ParamFits(p)) && ps[0].key < ps[1].key < ps[2].key
    requires params == ParamWire(ps[0]) + ParamWire(ps[1]) + ParamWire(ps[2])
    ensures ReadBody(Body(adn, addrs, params)) == Some(Instance(1, LabelBytes(labels), addrs, ps))
  {
    hide ReadName, ReadAddrs, ReadParams, NameWire, AddrWire, ParamWire, Body, U16, LabelBytes, Encodable, ParamFits;
    BodyParts(adn, addrs, params);
    NameReadsBack(labels, []);
    assert NameWire(labels) + [0] + [] == adn;
    AddrsReadBack(addrs);
    ParamsReadBack(ps);
  }

  lemma ParamsFit(port: nat, template: string)
    requires port < 0x1_0000 && Ascii(template) && |template| < 0x1_0000
    ensures forall p <- DohParams(port, template) :: ParamFits(p)
  {
  }

  /** An encoded instance is its length followed by a body that reads back as meant. */
  lemma InstanceReadsBack(domain: string, addrs: seq<Ipv4>, port: nat, path: string)
    requires port < 0x1_0000 && EncodedInstance(domain, addrs, port, path).Some?
    ensures var bytes := EncodedInstance(domain, addrs, port, path).value;
            && |bytes| >= 2 && U16(bytes[0], bytes[1]) == |bytes| - 2
            && ReadBody(bytes[2..]) == Some(Meant(domain, addrs, port, path))
  {
    var bytes := EncodedInstance(domain, addrs, port, path).value;
    var adn, params := EncodedName(domain).value, EncodedParams(port, path).value;
    var template := NormalizedPath(path).value;
    NormalizedIsNormal(domain);
    LabelsEncodable(NormalizedDomain(domain).value);
    TemplateIsAscii(path);
    hide ReadBody, NormalName, NormalizedDomain, NormalizedPath, Labels, NameWire, ParamWire, Body, LabelBytes, Encodable;
    ParamsFit(port, template);
    BodyReadsBack(Labels(NormalizedDomain(domain).value), addrs, DohParams(port, template), adn, params);
    var body := Body(adn, addrs, params);
    assert bytes == Put16(|body|) + body;
    assert bytes[0] == Put16(|body|)[0] && bytes[1] == Put16(|body|)[1] && bytes[2..] == body;
  }

  /** What a client finds in an instance: priority 1, the given addresses, and under key 1 the
      protocol `h2`, under key 3 the port, under key 7 the normalized template, nothing else. */
  lemma InstanceSays(domain: string, addrs: seq<Ipv4>, port: nat, path: string)
    requires port < 0x1_0000 && EncodedInstance(domain, addrs, port, path).Some?
    ensures var bytes := EncodedInstance(domain, addrs, port, path).value;
            && |bytes| >= 2 && NormalizedPath(path).Some? && Ascii(NormalizedPath(path).value)
            && var instance := ReadBody(bytes[2..]);
               && instance.Some? && instance.value.priority == 1 && instance.value.addrs == addrs
               && instance.value.params == [Param(1, [2, 104, 50]), Param(3, [port / 256, port % 256]),
                                            Param(7, AsBytes(NormalizedPath(path).value))]
  {
    InstanceReadsBack(domain, addrs, port, path);
    TemplateIsAscii(path);
    hide ReadBody, EncodedName, EncodedParams, Body, NormalizedPath, NormalizedDomain, LabelBytes;
    assert 'h' as int == 104 && '2' as int == 50;
  }

  /** The bytes of an instance determine the normalized domain, the addresses, the port and
      the path template. */
  lemma InstanceIsInjective(domain: string, addrs: seq<Ipv4>, port: nat, path: string,
                            domain2: string, addrs2: seq<Ipv4>, port2: nat, path2: string)
    requires port < 0x1_0000 && EncodedInstance(domain, addrs, port, path).Some?
    requires port2 < 0x1_0000 && EncodedInstance(domain2, addrs2, port2, path2).Some?
    requires EncodedInstance(domain, addrs, port, path) == EncodedInstance(domain2, addrs2, port2, path2)
    ensures NormalizedDomain(domain) == NormalizedDomain(domain2) && addrs == addrs2
    ensures port == port2 && NormalizedPath(path) == NormalizedPath(path2)
  {
    InstanceReadsBack(domain, addrs, port, path);
    InstanceReadsBack(domain2, addrs2, port2, path2);
    hide ReadBody, U16, EncodedName, EncodedParams, Body;
    var one, two := Meant(domain, addrs, port, path), Meant(domain2, addrs2, port2, path2);
    assert one == two;
    MeantIsInjective(domain, addrs, port, path, domain2, addrs2, port2, path2);
  }

  lemma AsBytesIsInjective(s: string, t: string)
    requires Ascii(s) && Ascii(t) && AsBytes(s) == AsBytes(t)
    ensures s == t
  {
    forall i | 0 <= i < |s|
      ensures s[i] == t[i]
    {
      assert AsBytes(s)[i] == AsBytes(t)[i];
    }
  }

  lemma {:induction false} LabelBytesIsInjective(a: seq<string>, b: seq<string>)
    requires (forall part <- a :: Encodable(part)) && (forall part <- b :: Encodable(part))
    requires LabelBytes(a) == LabelBytes(b)
    ensures a == b
  {
    forall i | 0 <= i < |a|
      ensures a[i] == b[i]
    {
      assert a[i] in a && b[i] in b;
      assert LabelBytes(a)[i] == LabelBytes(b)[i];
      AsBytesIsInjective(a[i], b[i]);
    }
  }

  lemma MeantIsInjective(domain: string, addrs: seq<Ipv4>, port: nat, path: string,
                         domain2: string, addrs2: seq<Ipv4>, port2: nat, path2: string)
    requires port < 0x1_0000 && EncodedInstance(domain, addrs, port, path).Some?
    requires port2 < 0x1_0000 && EncodedInstance(domain2, addrs2, port2, path2).Some?
    requires Meant(domain, addrs, port, path) == Meant(domain2, addrs2, port2, path2)
    ensures NormalizedDomain(domain) == NormalizedDomain(domain2) && addrs == addrs2
    ensures port == port2 && NormalizedPath(path) == NormalizedPath(path2)
  {
    var n, n2 := NormalizedDomain(domain).value, NormalizedDomain(domain2).value;
    var t, t2 := NormalizedPath(path).value, NormalizedPath(path2).value;
    var one, two := Meant(domain, addrs, port, path), Meant(domain2, addrs2, port2, path2);
    NormalizedIsNormal(domain);
    NormalizedIsNormal(domain2);
    LabelsEncodable(n);
    LabelsEncodable(n2);
    TemplateIsAscii(path);
    TemplateIsAscii(path2);
    hide NormalizedDomain, NormalizedPath, NormalName, Labels, Encodable, LabelBytes, Ascii, EncodedInstance;
    LabelBytesIsInjective(Labels(n), Labels(n2));
    DottedLabels(n);
    DottedLabels(n2);
    assert one.params[1].value == Put16(port) && two.params[1].value == Put16(port2);
    assert one.params[2].value == AsBytes(t) && two.params[2].value == AsBytes(t2);
    AsBytesIsInjective(t, t2);
  }

  // ---------------------------------------------------------- names and payload

  lemma {:induction false} NameWireLength(labels: seq<string>)
    requires labels != [] && forall part <- labels :: Encodable(part)
    ensures |NameWire(labels)| == |Dotted(labels)| + 1
  {
    assert labels[0] in labels && forall part <- labels[1..] :: part in labels;
    if |labels| == 1 {
      assert NameWire(labels[1..]) == [];
    } else {
      NameWireLength(labels[1..]);
    }
  }

  /** An encoded name is two bytes longer than its text, so never more than 255 bytes. */
  lemma NamesAreShort(name: string)
    requires EncodedName(name).Some?
    ensures |EncodedName(name).value| == |NormalizedDomain(name).value| + 2 <= 255
  {
    var n := NormalizedDomain(name).value;
    NormalizedIsNormal(name);
    LabelsEncodable(n);
    NameWireLength(Labels(n));
    DottedLabels(n);
  }

  /** The instances the truncating encoder keeps: those that encode and still fit. */
  ghost function Kept(domains: seq<string>, addrs: seq<Ipv4>, port: nat, path: string, maxLen: nat): seq<Instance>
    requires port < 0x1_0000
  {
    if domains == [] then []
    else
      var front, last := domains[..|domains| - 1], domains[|domains| - 1];
      var kept := Kept(front, addrs, port, path, maxLen);
      match EncodedInstance(last, addrs, port, path)
      case None => kept
      case Some(bytes) =>
        if |Payload(front, addrs, port, path, maxLen)| + |bytes| > maxLen then kept
        else kept + [Meant(last, addrs, port, path)]
  }

  lemma {:induction false} PayloadAppend(s: Bytes, instance: Bytes)
    requires ReadPayload(s).Some? && |instance| >= 2 && U16(instance[0], instance[1]) == |instance| - 2
    requires ReadBody(instance[2..]).Some?
    ensures ReadPayload(s + instance) == Some(ReadPayload(s).value + [ReadBody(instance[2..]).value])
    decreases |s|
  {
    hide ReadBody, U16, ReadPayload;
    if s == [] {
      NoPayload();
      OneInstance(instance);
      assert s + instance == instance;
      var added := [ReadBody(instance[2..]).value];
      assert [] + added == added;
    } else {
      PayloadEnd(s);
      var end := 2 + U16(s[0], s[1]);
      PayloadFirst(s);
      PayloadAppend(s[end..], instance);
      PayloadStep(s, instance, end, ReadBody(instance[2..]).value);
    }
  }

  lemma NoPayload()
    ensures ReadPayload([]) == Some([])
  {
  }

  lemma PayloadStep(s: Bytes, instance: Bytes, end: nat, added: Instance)
    requires |s| >= 2 && end == 2 + U16(s[0], s[1]) <= |s|
    requires ReadBody(s[2..end]).Some? && ReadPayload(s[end..]).Some?
    requires ReadPayload(s[end..] + instance) == Some(ReadPayload(s[end..]).value + [added])
    ensures ReadPayload(s + instance) == Some([ReadBody(s[2..end]).value] + ReadPayload(s[end..]).value + [added])
  {
    hide ReadBody, U16, ReadPayload;
    SplitWhole(s, instance, end);
    PayloadFirst(s + instance);
    var first, rest := ReadBody(s[2..end]).value, ReadPayload(s[end..]).value;
    assert [first] + (rest + [added]) == [first] + rest + [added];
  }

  lemma PayloadEnd(s: Bytes)
    requires s != [] && ReadPayload(s).Some?
    ensures |s| >= 2 && |s| >= 2 + U16(s[0], s[1])
  {
    hide ReadBody, U16;
  }

  lemma SplitWhole(s: Bytes, instance: Bytes, end: nat)
    requires 2 <= end <= |s|
    ensures var whole := s + instance;
            && whole[0] == s[0] && whole[1] == s[1]
            && whole[2..end] == s[2..end] && whole[end..] == s[end..] + instance
  {
  }

  lemma OneInstance(instance: Bytes)
    requires |instance| >= 2 && U16(instance[0], instance[1]) == |instance| - 2 && ReadBody(instance[2..]).Some?
    ensures ReadPayload(instance) == Some([ReadBody(instance[2..]).value])
  {
    hide ReadBody, U16;
    assert instance[|instance|..] == [] && instance[2..|instance|] == instance[2..];
    var one := [ReadBody(instance[2..]).value];
    assert ReadPayload(instance[|instance|..]) == Some([]) && one + [] == one;
  }

  /** Reading a payload reads its first instance, then the rest. */
  lemma PayloadFirst(s: Bytes)
    requires |s| >= 2 && |s| >= 2 + U16(s[0], s[1])
    ensures var end := 2 + U16(s[0], s[1]);
            var body, rest := ReadBody(s[2..end]), ReadPayload(s[end..]);
            ReadPayload(s) == if body.Some? && rest.Some? then Some([body.value] + rest.value) else None
  {
    hide ReadBody, U16;
  }

  /** The truncated payload is exactly the kept instances, whole and in order. */
  lemma {:induction false} PayloadReadsBack(domains: seq<string>, addrs: seq<Ipv4>, port: nat, path: string, maxLen: nat)
    requires port < 0x1_0000
    ensures ReadPayload(Payload(domains, addrs, port, path, maxLen)) ==
            Some(Kept(domains, addrs, port, path, maxLen))
  {
    if domains != [] {
      hide ReadBody, EncodedInstance, Meant, U16;
      var front, last := domains[..|domains| - 1], domains[|domains| - 1];
      PayloadReadsBack(front, addrs, port, path, maxLen);
      var encoded := EncodedInstance(last, addrs, port, path);
      if encoded.Some? {
        InstanceReadsBack(last, addrs, port, path);
        PayloadAppend(Payload(front, addrs, port, path, maxLen), encoded.value);
      }
    }
  }
}
