/** The server name in a TLS ClientHello: the parser, a printer, and their agreement.

    The printer follows section 4.1.2 of RFC 8446 and section 3 of RFC 6066. */
module ClientHello {
  import opened Bits
  import opened Options
  import Text

  type Bytes = seq<Byte>

  // ------------------------------------------------------------------- names

  predicate Between(b: Byte, lo: nat, hi: nat) {
    lo <= b <= hi
  }

  /** Length of the well-formed UTF-8 character `s` starts with, or 0. */
  function CharLen(s: Bytes): (n: nat)
    ensures n <= |s| && n <= 4
  {
    if s == [] then 0
    else if s[0] < 0x80 then 1
    else if |s| >= 2 && Between(s[0], 0xC2, 0xDF) && Between(s[1], 0x80, 0xBF) then 2
    else if |s| >= 3 && Between(s[2], 0x80, 0xBF) &&
            ((s[0] == 0xE0 && Between(s[1], 0xA0, 0xBF)) || (s[0] == 0xED && Between(s[1], 0x80, 0x9F)) ||
             ((Between(s[0], 0xE1, 0xEC) || Between(s[0], 0xEE, 0xEF)) && Between(s[1], 0x80, 0xBF))) then 3
    else if |s| >= 4 && Between(s[2], 0x80, 0xBF) && Between(s[3], 0x80, 0xBF) &&
            ((s[0] == 0xF0 && Between(s[1], 0x90, 0xBF)) || (s[0] == 0xF4 && Between(s[1], 0x80, 0x8F)) ||
             (Between(s[0], 0xF1, 0xF3) && Between(s[1], 0x80, 0xBF))) then 4
    else 0
  }

  predicate ValidUtf8(s: Bytes) {
    s == [] || (CharLen(s) > 0 && ValidUtf8(s[CharLen(s)..]))
  }

  function Lower(s: Bytes): (r: Bytes)
    ensures |r| == |s|
  {
    seq(|s|, i requires 0 <= i < |s| => if 65 <= s[i] <= 90 then s[i] + 32 else s[i])
  }

  function Host(name: Bytes): Option<Bytes> {
    if ValidUtf8(name) then Some(Lower(name)) else None
  }

  // ---------------------------------------------------- what the parser means

  /** The first host name from `pos` on in a server-name list that ends at `end`. */
  function ScanNames(data: Bytes, pos: nat, end: nat): Option<Bytes>
    requires end <= |data|
    decreases end - pos
  {
    if pos + 3 > end then None
    else
      var len := U16(data[pos + 1], data[pos + 2]);
      var start := pos + 3;
      if data[pos] == 0 && start + len <= end then Host(data[start..start + len])
      else ScanNames(data, start + len, end)
  }

  function ServerName(data: Bytes): Option<Bytes> {
    if |data| < 2 then None
    else
      var end := 2 + U16(data[0], data[1]);
      if |data| < end then None else ScanNames(data, 2, end)
  }

  /** The server name of the first extension of type 0 from `pos` on. */
  function ScanExtensions(ch: Bytes, pos: nat, end: nat): Option<Bytes>
    requires end <= |ch|
    decreases end - pos
  {
    if pos + 4 > end then None
    else
      var kind := U16(ch[pos], ch[pos + 1]);
      var len := U16(ch[pos + 2], ch[pos + 3]);
      var start := pos + 4;
      if start + len > end then None
      else if kind == 0 then ServerName(ch[start..start + len])
      else ScanExtensions(ch, start + len, end)
  }

  /** Position after a vector with a one-byte length. */
  function Skip8(ch: Bytes, pos: nat): Option<nat> {
    if pos >= |ch| then None else Some(pos + 1 + ch[pos])
  }

  /** Position after a vector with a two-byte length. */
  function Skip16(ch: Bytes, pos: nat): Option<nat> {
    if pos + 2 > |ch| then None else Some(pos + 2 + U16(ch[pos], ch[pos + 1]))
  }

  function HelloName(ch: Bytes): Option<Bytes> {
    if |ch| < 34 then None
    else match Skip8(ch, 34)
      case None => None
      case Some(suites) =>
        match Skip16(ch, suites)
        case None => None
        case Some(methods) =>
          match Skip8(ch, methods)
          case None => None
          case Some(extensions) =>
            match Skip16(ch, extensions)
            case None => None
            case Some(end) => if end > |ch| then None else ScanExtensions(ch, extensions + 2, end)
  }

  function HandshakeName(handshake: Bytes): Option<Bytes> {
    if |handshake| < 4 || handshake[0] != 1 then None
    else
      var end := 4 + handshake[1] * 0x1_0000 + U16(handshake[2], handshake[3]);
      if |handshake| < end then None else HelloName(handshake[4..end])
  }

  function Parsed(buf: Bytes): Option<Bytes> {
    if |buf| < 5 || buf[0] != 0x16 then None
    else
      var end := 5 + U16(buf[3], buf[4]);
      if |buf| < end then None else HandshakeName(buf[5..end])
  }

  // ---------------------------------------------------------- the parser runs

  method ParseServerName(data: Bytes) returns (r: Option<Bytes>)
    ensures r == ServerName(data)
  {
    hide Host, U16;
    if |data| < 2 {
      return None;
    }
    var listLen := U16(data[0], data[1]);
    if |data| < 2 + listLen {
      return None;
    }
    var pos, end := 2, 2 + listLen;
    while pos + 3 <= end
      invariant ScanNames(data, pos, end) == ServerName(data)
      decreases end - pos
    {
      var kind := data[pos];
      var len := U16(data[pos + 1], data[pos + 2]);
      pos := pos + 3;
      if kind == 0 && pos + len <= end {
        return Host(data[pos..pos + len]);
      }
      pos := pos + len;
    }
    r := None;
  }

  method ParseSni(buf: Bytes) returns (r: Option<Bytes>)
    ensures r == Parsed(buf)
  {
    if |buf| < 5 || buf[0] != 0x16 {
      return None;
    }
    var recordLen := U16(buf[3], buf[4]);
    if |buf| < 5 + recordLen {
      return None;
    }
    var handshake: Bytes := buf[5..5 + recordLen];
    if |handshake| < 4 || handshake[0] != 1 {
      return None;
    }
    var helloLen: nat := handshake[1] * 0x1_0000 + U16(handshake[2], handshake[3]);
    if |handshake| < 4 + helloLen {
      return None;
    }
    var ch: Bytes := handshake[4..4 + helloLen];
    r := ParseHello(ch);
  }

  method ParseHello(ch: Bytes) returns (r: Option<Bytes>)
    ensures r == HelloName(ch)
  {
    hide ServerName, U16;
    if |ch| < 34 {
      return None;
    }
    var pos: nat := 34;
    if pos >= |ch| {
      return None;
    }
    pos := pos + 1 + ch[pos];
    if pos + 2 > |ch| {
      return None;
    }
    pos := pos + 2 + U16(ch[pos], ch[pos + 1]);
    if pos >= |ch| {
      return None;
    }
    pos := pos + 1 + ch[pos];
    if pos + 2 > |ch| {
      return None;
    }
    var extLen := U16(ch[pos], ch[pos + 1]);
    pos := pos + 2;
    var end := pos + extLen;
    if end > |ch| {
      return None;
    }
    while pos + 4 <= end
      invariant ScanExtensions(ch, pos, end) == HelloName(ch)
      decreases end - pos
    {
      var kind := U16(ch[pos], ch[pos + 1]);
      var len := U16(ch[pos + 2], ch[pos + 3]);
      pos := pos + 4;
      if pos + len > end {
        return None;
      }
      if kind == 0 {
        r := ParseServerName(ch[pos..pos + len]);
        return;
      }
      pos := pos + len;
    }
    r := None;
  }

  // -------------------------------------------------------------- the printer

  datatype Name = Name(kind: Byte, bytes: Bytes)

  datatype Extension = ServerNames(names: seq<Name>) | Other(kind: nat, data: Bytes)

  datatype Hello = Hello(version: Bytes, random: Bytes, session: Bytes, suites: Bytes, methods: Bytes, extensions: seq<Extension>)

  ghost predicate NameFits(n: Name) {
    |n.bytes| < 0x1_0000
  }

  ghost function PrintName(n: Name): Bytes
    requires NameFits(n)
  {
    [n.kind] + Put16(|n.bytes|) + n.bytes
  }

  ghost function PrintNames(names: seq<Name>): Bytes
    requires forall n <- names :: NameFits(n)
  {
    if names == [] then [] else PrintName(names[0]) + PrintNames(names[1..])
  }

  ghost predicate ExtensionFits(e: Extension) {
    match e
    case ServerNames(names) => (forall n <- names :: NameFits(n)) && |PrintNames(names)| + 2 < 0x1_0000
    case Other(kind, data) => 0 < kind < 0x1_0000 && |data| < 0x1_0000
  }

  ghost function ExtensionData(e: Extension): (s: Bytes)
    requires ExtensionFits(e)
    ensures |s| < 0x1_0000
  {
    match e
    case ServerNames(names) => Put16(|PrintNames(names)|) + PrintNames(names)
    case Other(_, data) => data
  }

  ghost function Kind(e: Extension): nat
    requires ExtensionFits(e)
  {
    if e.ServerNames? then 0 else e.kind
  }

  ghost function PrintExtension(e: Extension): Bytes
    requires ExtensionFits(e)
  {
    Put16(Kind(e)) + Put16(|ExtensionData(e)|) + ExtensionData(e)
  }

  ghost function PrintExtensions(es: seq<Extension>): Bytes
    requires forall e <- es :: ExtensionFits(e)
  {
    if es == [] then [] else PrintExtension(es[0]) + PrintExtensions(es[1..])
  }

  ghost predicate HelloFits(h: Hello) {
    && |h.version| == 2 && |h.random| == 32 && |h.session| < 256 && |h.suites| < 0x1_0000 && |h.methods| < 256
    && (forall e <- h.extensions :: ExtensionFits(e)) && |PrintExtensions(h.extensions)| < 0x1_0000
    && |PrintHello(h)| + 4 < 0x1_0000
  }

  ghost function PrintHello(h: Hello): Bytes
    requires |h.session| < 256 && |h.suites| < 0x1_0000 && |h.methods| < 256
    requires (forall e <- h.extensions :: ExtensionFits(e)) && |PrintExtensions(h.extensions)| < 0x1_0000
  {
    Preamble(h) + PrintExtensions(h.extensions)
  }

  /** Everything up to and including the length of the extension list. */
  ghost function Preamble(h: Hello): Bytes
    requires |h.session| < 256 && |h.suites| < 0x1_0000 && |h.methods| < 256
    requires (forall e <- h.extensions :: ExtensionFits(e)) && |PrintExtensions(h.extensions)| < 0x1_0000
  {
    h.version + h.random
    + [|h.session|] + h.session
    + Put16(|h.suites|) + h.suites
    + [|h.methods|] + h.methods
    + Put16(|PrintExtensions(h.extensions)|)
  }

  ghost function Record(version: (Byte, Byte), fragment: Bytes): Bytes
    requires |fragment| < 0x1_0000
  {
    [0x16, version.0, version.1] + Put16(|fragment|) + fragment
  }

  ghost function Handshake(body: Bytes): Bytes
    requires |body| < 0x1_0000
  {
    [1, 0] + Put16(|body|) + body
  }

  /** One record of type handshake holding the whole ClientHello. */
  ghost function PrintRecord(h: Hello, recordVersion: (Byte, Byte)): Bytes
    requires HelloFits(h)
  {
    Record(recordVersion, Handshake(PrintHello(h)))
  }

  // ------------------------------------------------------------- agreement

  ghost function FirstHost(names: seq<Name>): Option<Bytes> {
    if names == [] then None
    else if names[0].kind == 0 then Host(names[0].bytes)
    else FirstHost(names[1..])
  }

  /** The lowercased first host name of the first server-name extension. */
  ghost function Meant(es: seq<Extension>): Option<Bytes> {
    if es == [] then None
    else if es[0].ServerNames? then FirstHost(es[0].names)
    else Meant(es[1..])
  }

  /** `piece` stands in `data` at `pos`. */
  ghost predicate Sits(data: Bytes, pos: nat, piece: Bytes) {
    pos + |piece| <= |data| && data[pos..pos + |piece|] == piece
  }

  lemma SitsSplit(data: Bytes, pos: nat, a: Bytes, b: Bytes)
    requires Sits(data, pos, a + b)
    ensures Sits(data, pos, a) && Sits(data, pos + |a|, b)
  {
    var whole := data[pos..pos + |a + b|];
    assert whole[..|a|] == a && whole[|a|..] == b;
    assert data[pos..pos + |a|] == whole[..|a|];
    assert data[pos + |a|..pos + |a + b|] == whole[|a|..];
  }

  lemma SitsByte(data: Bytes, pos: nat, b: Byte)
    requires Sits(data, pos, [b])
    ensures pos < |data| && data[pos] == b
  {
    assert data[pos..pos + 1][0] == data[pos];
  }

  lemma Sits16(data: Bytes, pos: nat, n: nat)
    requires n < 0x1_0000 && Sits(data, pos, Put16(n))
    ensures pos + 2 <= |data| && U16(data[pos], data[pos + 1]) == n
  {
    var piece := data[pos..pos + 2];
    assert piece[0] == data[pos] && piece[1] == data[pos + 1];
  }

  lemma NameReadsBack(data: Bytes, pos: nat, n: Name)
    requires NameFits(n) && Sits(data, pos, PrintName(n))
    ensures pos + 3 + |n.bytes| <= |data| && |PrintName(n)| == 3 + |n.bytes|
    ensures data[pos] == n.kind && U16(data[pos + 1], data[pos + 2]) == |n.bytes|
    ensures data[pos + 3..pos + 3 + |n.bytes|] == n.bytes
  {
    hide U16;
    SitsSplit(data, pos, [n.kind] + Put16(|n.bytes|), n.bytes);
    SitsSplit(data, pos, [n.kind], Put16(|n.bytes|));
    SitsByte(data, pos, n.kind);
    Sits16(data, pos + 1, |n.bytes|);
  }

  lemma NamesOnce(data: Bytes, pos: nat, len: nat)
    requires pos + 3 + len <= |data| && U16(data[pos + 1], data[pos + 2]) == len
    ensures ScanNames(data, pos, |data|) ==
            if data[pos] == 0 then Host(data[pos + 3..pos + 3 + len]) else ScanNames(data, pos + 3 + len, |data|)
  {
    hide U16, Host;
  }

  /** One turn of the parser's loop over a printed name. */
  lemma NamesStep(data: Bytes, pos: nat, n: Name)
    requires NameFits(n) && Sits(data, pos, PrintName(n))
    ensures ScanNames(data, pos, |data|) ==
            if n.kind == 0 then Host(n.bytes) else ScanNames(data, pos + |PrintName(n)|, |data|)
  {
    hide *;
    NameReadsBack(data, pos, n);
    NamesOnce(data, pos, |n.bytes|);
  }

  lemma PrintedFirstName(names: seq<Name>)
    requires names != [] && forall x <- names :: NameFits(x)
    ensures PrintNames(names) == PrintName(names[0]) + PrintNames(names[1..])
    ensures FirstHost(names) == if names[0].kind == 0 then Host(names[0].bytes) else FirstHost(names[1..])
  {
  }

  lemma PrintedNoneName(data: Bytes)
    ensures PrintNames([]) == [] && ScanNames(data, |data|, |data|) == None && FirstHost([]) == None
  {
  }

  lemma {:induction false} NamesAgree(data: Bytes, pos: nat, names: seq<Name>)
    requires forall n <- names :: NameFits(n)
    requires Sits(data, pos, PrintNames(names)) && |data| == pos + |PrintNames(names)|
    ensures ScanNames(data, pos, |data|) == FirstHost(names)
    decreases |names|
  {
    hide *;
    if names == [] {
      PrintedNoneName(data);
    } else {
      PrintedFirstName(names);
      SitsSplit(data, pos, PrintName(names[0]), PrintNames(names[1..]));
      NamesStep(data, pos, names[0]);
      NamesAgree(data, pos + |PrintName(names[0])|, names[1..]);
    }
  }

  lemma ExtensionReadsBack(ch: Bytes, pos: nat, e: Extension)
    requires ExtensionFits(e) && Sits(ch, pos, PrintExtension(e))
    ensures var len := |ExtensionData(e)|;
            && pos + 4 + len <= |ch| && |PrintExtension(e)| == 4 + len
            && U16(ch[pos], ch[pos + 1]) == Kind(e) && (Kind(e) == 0 <==> e.ServerNames?)
            && U16(ch[pos + 2], ch[pos + 3]) == len
            && ch[pos + 4..pos + 4 + len] == ExtensionData(e)
  {
    var data := ExtensionData(e);
    hide ExtensionData, U16;
    SitsSplit(ch, pos, Put16(Kind(e)) + Put16(|data|), data);
    SitsSplit(ch, pos, Put16(Kind(e)), Put16(|data|));
    Sits16(ch, pos, Kind(e));
    Sits16(ch, pos + 2, |data|);
  }

  lemma ExtensionAgrees(e: Extension)
    requires ExtensionFits(e) && e.ServerNames?
    ensures ServerName(ExtensionData(e)) == FirstHost(e.names)
  {
    var data, names := ExtensionData(e), PrintNames(e.names);
    hide ScanNames, FirstHost, PrintNames;
    assert data[2..2 + |names|] == names;
    NamesAgree(data, 2, e.names);
  }

  lemma ExtensionsOnce(ch: Bytes, pos: nat, len: nat)
    requires pos + 4 + len <= |ch| && U16(ch[pos + 2], ch[pos + 3]) == len
    ensures ScanExtensions(ch, pos, |ch|) ==
            if U16(ch[pos], ch[pos + 1]) == 0 then ServerName(ch[pos + 4..pos + 4 + len])
            else ScanExtensions(ch, pos + 4 + len, |ch|)
  {
    hide U16, ServerName;
  }

  /** One turn of the parser's loop over a printed extension. */
  lemma ExtensionsStep(ch: Bytes, pos: nat, e: Extension)
    requires ExtensionFits(e) && Sits(ch, pos, PrintExtension(e))
    ensures ScanExtensions(ch, pos, |ch|) ==
            if e.ServerNames? then FirstHost(e.names) else ScanExtensions(ch, pos + |PrintExtension(e)|, |ch|)
  {
    hide *;
    ExtensionReadsBack(ch, pos, e);
    ExtensionsOnce(ch, pos, |ExtensionData(e)|);
    if e.ServerNames? {
      ExtensionAgrees(e);
    }
  }

  lemma PrintedFirstExtension(es: seq<Extension>)
    requires es != [] && forall x <- es :: ExtensionFits(x)
    ensures PrintExtensions(es) == PrintExtension(es[0]) + PrintExtensions(es[1..])
    ensures Meant(es) == if es[0].ServerNames? then FirstHost(es[0].names) else Meant(es[1..])
  {
  }

  lemma PrintedNoneExtension(ch: Bytes)
    ensures PrintExtensions([]) == [] && ScanExtensions(ch, |ch|, |ch|) == None && Meant([]) == None
  {
  }

  lemma {:induction false} ExtensionsAgree(ch: Bytes, pos: nat, es: seq<Extension>)
    requires forall e <- es :: ExtensionFits(e)
    requires Sits(ch, pos, PrintExtensions(es)) && |ch| == pos + |PrintExtensions(es)|
    ensures ScanExtensions(ch, pos, |ch|) == Meant(es)
    decreases |es|
  {
    hide *;
    if es == [] {
      PrintedNoneExtension(ch);
    } else {
      PrintedFirstExtension(es);
      SitsSplit(ch, pos, PrintExtension(es[0]), PrintExtensions(es[1..]));
      ExtensionsStep(ch, pos, es[0]);
      ExtensionsAgree(ch, pos + |PrintExtension(es[0])|, es[1..]);
    }
  }

  lemma PreambleReadsBack(h: Hello, es: Bytes)
    requires HelloFits(h) && es == PrintExtensions(h.extensions)
    ensures var ch := Preamble(h) + es;
            var suites := 35 + |h.session|;
            var methods := suites + 2 + |h.suites|;
            var extensions := methods + 1 + |h.methods|;
            && |Preamble(h)| == extensions + 2
            && Skip8(ch, 34) == Some(suites) && Skip16(ch, suites) == Some(methods)
            && Skip8(ch, methods) == Some(extensions) && Skip16(ch, extensions) == Some(|ch|)
  {
    hide PrintExtensions, ExtensionFits;
    var ch := Preamble(h) + es;
    var suites := 35 + |h.session|;
    var methods := suites + 2 + |h.suites|;
    var extensions := methods + 1 + |h.methods|;
    assert ch[34] == |h.session|;
    assert ch[suites..suites + 2] == Put16(|h.suites|);
    assert ch[methods] == |h.methods|;
    assert ch[extensions..extensions + 2] == Put16(|es|);
  }

  lemma HelloScans(ch: Bytes, suites: nat, methods: nat, extensions: nat)
    requires |ch| >= 34 && Skip8(ch, 34) == Some(suites) && Skip16(ch, suites) == Some(methods)
    requires Skip8(ch, methods) == Some(extensions) && Skip16(ch, extensions) == Some(|ch|)
    ensures HelloName(ch) == ScanExtensions(ch, extensions + 2, |ch|)
  {
    hide Skip8, Skip16, ScanExtensions;
  }

  lemma SitsLast(before: Bytes, piece: Bytes)
    ensures Sits(before + piece, |before|, piece)
  {
  }

  lemma HelloAgrees(h: Hello)
    requires HelloFits(h)
    ensures HelloName(PrintHello(h)) == Meant(h.extensions)
  {
    hide HelloName, ScanExtensions, ExtensionFits, PrintExtensions, Preamble, Skip8, Skip16, Sits, Meant;
    var ch, es := PrintHello(h), PrintExtensions(h.extensions);
    var suites := 35 + |h.session|;
    var methods := suites + 2 + |h.suites|;
    PreambleReadsBack(h, es);
    HelloScans(ch, suites, methods, methods + 1 + |h.methods|);
    SitsLast(Preamble(h), es);
    ExtensionsAgree(ch, |Preamble(h)|, h.extensions);
  }

  lemma HandshakeAgrees(body: Bytes)
    requires |body| < 0x1_0000
    ensures HandshakeName(Handshake(body)) == HelloName(body)
  {
    hide HelloName;
    var handshake := Handshake(body);
    assert handshake[2..4] == Put16(|body|);
    assert handshake[4..4 + |body|] == body;
  }

  lemma RecordAgrees(recordVersion: (Byte, Byte), handshake: Bytes, trailing: Bytes)
    requires |handshake| < 0x1_0000
    ensures Parsed(Record(recordVersion, handshake) + trailing) == HandshakeName(handshake)
  {
    hide HandshakeName;
    var buf := Record(recordVersion, handshake) + trailing;
    assert buf[3..5] == Put16(|handshake|);
    assert buf[5..5 + |handshake|] == handshake;
  }

  /** Printing then parsing gives the meant name; what follows the record does not matter. */
  lemma PrintThenParse(h: Hello, recordVersion: (Byte, Byte), trailing: Bytes)
    requires HelloFits(h)
    ensures Parsed(PrintRecord(h, recordVersion) + trailing) == Meant(h.extensions)
  {
    hide PrintHello, HelloName, HandshakeName, Record, Parsed, Meant;
    HelloAgrees(h);
    HandshakeAgrees(PrintHello(h));
    RecordAgrees(recordVersion, Handshake(PrintHello(h)), trailing);
  }

  /** A cut-off record never yields a name. */
  lemma StrictPrefixIsRefused(h: Hello, recordVersion: (Byte, Byte), n: nat)
    requires HelloFits(h) && n < |PrintRecord(h, recordVersion)|
    ensures Parsed(PrintRecord(h, recordVersion)[..n]) == None
  {
    var whole := PrintRecord(h, recordVersion);
    assert whole[3..5] == Put16(|Handshake(PrintHello(h))|);
    hide PrintHello, HandshakeName;
    if n >= 5 {
      assert whole[..n][3] == whole[3] && whole[..n][4] == whole[4];
    }
  }

  // ------------------------------------------------------------------- UTF-8

  ghost predicate Scalar(c: nat) {
    c < 0xD800 || 0xE000 <= c < 0x11_0000
  }

  /** The encoding of section 3 of RFC 3629. */
  ghost function Utf8(c: nat): Bytes
    requires Scalar(c)
  {
    if c < 0x80 then [c]
    else if c < 0x800 then [0xC0 + c / 64, 0x80 + c % 64]
    else if c < 0x1_0000 then [0xE0 + c / 4096, 0x80 + c / 64 % 64, 0x80 + c % 64]
    else [0xF0 + c / 262144, 0x80 + c / 4096 % 64, 0x80 + c / 64 % 64, 0x80 + c % 64]
  }

  ghost function Utf8All(cs: seq<nat>): Bytes
    requires forall c <- cs :: Scalar(c)
  {
    if cs == [] then [] else Utf8(cs[0]) + Utf8All(cs[1..])
  }

  lemma EncodedLength(c: nat, rest: Bytes)
    requires Scalar(c)
    ensures CharLen(Utf8(c) + rest) == |Utf8(c)| > 0
  {
    var s: Bytes := Utf8(c) + rest;
    assert forall i | 0 <= i < |Utf8(c)| :: s[i] == Utf8(c)[i];
  }

  lemma Digits2(x: nat, y: nat)
    requires y < 64
    ensures (x * 64 + y) / 64 == x && (x * 64 + y) % 64 == y
  {
  }

  lemma Digits3(x: nat, y: nat, z: nat)
    requires y < 64 && z < 64
    ensures var c := x * 4096 + y * 64 + z; c / 4096 == x && c / 64 % 64 == y && c % 64 == z
  {
    var c := x * 4096 + y * 64 + z;
    assert c == (x * 64 + y) * 64 + z;
    Digits2(x * 64 + y, z);
    Digits2(x, y);
    assert c / 4096 == x by { assert x * 4096 <= c < x * 4096 + 4096; }
  }

  lemma Digits4(w: nat, x: nat, y: nat, z: nat)
    requires x < 64 && y < 64 && z < 64
    ensures var c := w * 262144 + x * 4096 + y * 64 + z;
            c / 262144 == w && c / 4096 % 64 == x && c / 64 % 64 == y && c % 64 == z
  {
    var c := w * 262144 + x * 4096 + y * 64 + z;
    assert c == (w * 64 + x) * 4096 + y * 64 + z;
    Digits3(w * 64 + x, y, z);
    Digits2(w, x);
    assert c / 262144 == w by { assert w * 262144 <= c < w * 262144 + 262144; }
  }

  lemma DecodedLong(b0: nat, b1: nat, b2: nat, b3: nat) returns (c: nat)
    requires 0xF0 <= b0 <= 0xF4 && 0x80 <= b1 <= 0xBF && 0x80 <= b2 <= 0xBF && 0x80 <= b3 <= 0xBF
    requires (b0 == 0xF0 ==> b1 >= 0x90) && (b0 == 0xF4 ==> b1 <= 0x8F)
    ensures 0x1_0000 <= c < 0x11_0000 && Utf8(c) == [b0, b1, b2, b3]
  {
    Digits4(b0 - 0xF0, b1 - 0x80, b2 - 0x80, b3 - 0x80);
    c := (b0 - 0xF0) * 262144 + (b1 - 0x80) * 4096 + (b2 - 0x80) * 64 + (b3 - 0x80);
  }

  lemma DecodedMiddle(b0: nat, b1: nat, b2: nat) returns (c: nat)
    requires 0xE0 <= b0 <= 0xEF && 0x80 <= b1 <= 0xBF && 0x80 <= b2 <= 0xBF
    requires (b0 == 0xE0 ==> b1 >= 0xA0) && (b0 == 0xED ==> b1 <= 0x9F)
    ensures 0x800 <= c < 0x1_0000 && Scalar(c) && Utf8(c) == [b0, b1, b2]
  {
    Digits3(b0 - 0xE0, b1 - 0x80, b2 - 0x80);
    c := (b0 - 0xE0) * 4096 + (b1 - 0x80) * 64 + (b2 - 0x80);
  }

  lemma DecodedShort(b0: nat, b1: nat) returns (c: nat)
    requires 0xC2 <= b0 <= 0xDF && 0x80 <= b1 <= 0xBF
    ensures 0x80 <= c < 0x800 && Utf8(c) == [b0, b1]
  {
    Digits2(b0 - 0xC0, b1 - 0x80);
    c := (b0 - 0xC0) * 64 + (b1 - 0x80);
  }

  /** A well-formed character is the encoding of one scalar value. */
  lemma Decoded(s: Bytes) returns (c: nat)
    requires CharLen(s) > 0
    ensures Scalar(c) && Utf8(c) == s[..CharLen(s)]
  {
    var n := CharLen(s);
    if n == 1 {
      c := s[0];
    } else if n == 2 {
      c := DecodedShort(s[0], s[1]);
      assert s[..2] == [s[0], s[1]];
    } else if n == 3 {
      c := DecodedMiddle(s[0], s[1], s[2]);
      assert s[..3] == [s[0], s[1], s[2]];
    } else {
      c := DecodedLong(s[0], s[1], s[2], s[3]);
      assert s[..4] == [s[0], s[1], s[2], s[3]];
    }
  }

  lemma {:induction false} EncodedIsValid(cs: seq<nat>)
    requires forall c <- cs :: Scalar(c)
    ensures ValidUtf8(Utf8All(cs))
  {
    if cs != [] {
      hide Utf8, CharLen, Scalar;
      EncodedIsValid(cs[1..]);
      EncodedLength(cs[0], Utf8All(cs[1..]));
      var s := Utf8All(cs);
      assert s[|Utf8(cs[0])|..] == Utf8All(cs[1..]);
    }
  }

  lemma {:induction false} ValidDecodes(s: Bytes) returns (cs: seq<nat>)
    requires ValidUtf8(s)
    ensures (forall c <- cs :: Scalar(c)) && Utf8All(cs) == s
  {
    hide Utf8, CharLen, Scalar;
    if s == [] {
      cs := [];
    } else {
      var n := CharLen(s);
      var c := Decoded(s);
      var more := ValidDecodes(s[n..]);
      cs := [c] + more;
      assert cs[1..] == more && s == s[..n] + s[n..];
    }
  }

  /** The check accepts exactly the encodings of sequences of scalar values. */
  lemma ValidIsEncoded(s: Bytes)
    ensures ValidUtf8(s) <==> exists cs: seq<nat> :: (forall c <- cs :: Scalar(c)) && Utf8All(cs) == s
  {
    hide ValidUtf8, Utf8All, Scalar;
    if ValidUtf8(s) {
      var cs := ValidDecodes(s);
    }
    if cs: seq<nat> :| (forall c <- cs :: Scalar(c)) && Utf8All(cs) == s {
      EncodedIsValid(cs);
    }
  }

  /** Lowering works byte by byte: ASCII bytes as characters, all others not at all. */
  lemma LowerAsText(s: Bytes, i: nat)
    requires i < |s|
    ensures s[i] < 0x80 ==> Lower(s)[i] as int == Text.LowerChar(s[i] as char) as int
    ensures s[i] >= 0x80 ==> Lower(s)[i] == s[i]
  {
  }

  /** Names of plain ASCII letters, digits and dots always pass the UTF-8 check. */
  lemma {:induction false} AsciiIsValid(s: Bytes)
    requires forall b <- s :: b < 0x80
    ensures ValidUtf8(s) && Host(s) == Some(Lower(s))
  {
    if s != [] {
      assert s[0] in s && forall b <- s[1..] :: b in s;
      assert s[1..] == s[CharLen(s)..];
      AsciiIsValid(s[1..]);
    }
  }

  /** On arbitrary bytes, a returned name is a lowercased piece of the input, which is then a
      handshake record (type 22) with a ClientHello (type 1). */
  lemma NameComesFromInput(buf: Bytes) returns (i: nat, j: nat)
    requires Parsed(buf).Some?
    ensures i <= j <= |buf| && ValidUtf8(buf[i..j]) && Parsed(buf) == Some(Lower(buf[i..j]))
    ensures |buf| >= 9 && buf[0] == 0x16 && buf[5] == 1
  {
    hide HelloName, ValidUtf8, Lower;
    var handshake: Bytes := buf[5..5 + U16(buf[3], buf[4])];
    var ch: Bytes := handshake[4..4 + handshake[1] * 0x1_0000 + U16(handshake[2], handshake[3])];
    var k, l := NameInHello(ch);
    SliceOfSlice(handshake, 4, 4 + |ch|, k, l);
    SliceOfSlice(buf, 5, 5 + |handshake|, 4 + k, 4 + l);
    i, j := 9 + k, 9 + l;
  }

  lemma SliceOfSlice(s: Bytes, from: nat, to: nat, k: nat, l: nat)
    requires from <= to <= |s| && k <= l <= to - from
    ensures s[from..to][k..l] == s[from + k..from + l]
  {
    forall i | 0 <= i < l - k
      ensures s[from..to][k..l][i] == s[from + k..from + l][i]
    {
      assert s[from..to][k + i] == s[from + k + i];
    }
  }

  lemma NameInHello(ch: Bytes) returns (i: nat, j: nat)
    requires HelloName(ch).Some?
    ensures i <= j <= |ch| && ValidUtf8(ch[i..j]) && HelloName(ch) == Some(Lower(ch[i..j]))
  {
    hide ScanExtensions, ValidUtf8, Lower;
    var suites := Skip8(ch, 34).value;
    var methods := Skip16(ch, suites).value;
    var extensions := Skip8(ch, methods).value;
    i, j := NameInExtensions(ch, extensions + 2, Skip16(ch, extensions).value);
  }

  lemma NameInExtensions(ch: Bytes, pos: nat, end: nat) returns (i: nat, j: nat)
    requires end <= |ch| && ScanExtensions(ch, pos, end).Some?
    ensures i <= j <= |ch| && ValidUtf8(ch[i..j]) && ScanExtensions(ch, pos, end) == Some(Lower(ch[i..j]))
    decreases end - pos
  {
    hide ValidUtf8, Lower, ServerName, U16;
    var start, len := pos + 4, U16(ch[pos + 2], ch[pos + 3]);
    if U16(ch[pos], ch[pos + 1]) == 0 {
      var k, l := NameInData(ch[start..start + len]);
      SliceOfSlice(ch, start, start + len, k, l);
      i, j := start + k, start + l;
    } else {
      i, j := NameInExtensions(ch, start + len, end);
    }
  }

  lemma NameInData(data: Bytes) returns (i: nat, j: nat)
    requires ServerName(data).Some?
    ensures i <= j <= |data| && ValidUtf8(data[i..j]) && ServerName(data) == Some(Lower(data[i..j]))
  {
    hide ValidUtf8, Lower, ScanNames;
    i, j := NameInNames(data, 2, 2 + U16(data[0], data[1]));
  }

  lemma NameInNames(data: Bytes, pos: nat, end: nat) returns (i: nat, j: nat)
    requires end <= |data| && ScanNames(data, pos, end).Some?
    ensures i <= j <= |data| && ValidUtf8(data[i..j]) && ScanNames(data, pos, end) == Some(Lower(data[i..j]))
    decreases end - pos
  {
    var start := pos + 3;
    var len := U16(data[pos + 1], data[pos + 2]);
    if data[pos] == 0 && start + len <= end {
      i, j := start, start + len;
    } else {
      i, j := NameInNames(data, start + len, end);
    }
  }
}
