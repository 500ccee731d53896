/** AdGuard Home filter lines: which rules one line of text stands for. */
module AdguardLines {
  import opened Options
  import opened Text

  datatype MatchType = Full | Domain

  datatype Rule = Rule(kind: MatchType, value: string)

  /** What one line adds: nothing, a rule to subtract, or rules to offer. */
  datatype Line = Skipped | Negative(rule: Rule) | Offered(rules: seq<Rule>)

  /** Whether a text is an IPv4 or IPv6 literal; left open. */
  type IpTest = string -> bool

  // -------------------------------------------------------------- separators

  predicate Dollar(c: char) { c == '$' }

  predicate Tilde(c: char) { c == '~' }

  predicate EqualSign(c: char) { c == '=' }

  predicate Comma(c: char) { c == ',' }

  predicate Hash(c: char) { c == '#' }

  predicate CaretOrDollar(c: char) { c == '^' || c == '$' }

  predicate EndsBare(c: char) { AsciiWhite(c) || c in "/?#:@$^|*" }

  predicate EndsHost(c: char) { AsciiWhite(c) || c in "/?#:|$" }

  predicate EndsAnchored(c: char) { AsciiWhite(c) || c in "^$/?#:" }

  // ------------------------------------------------------------------- names

  predicate ValidLabel(s: string) {
    && 0 < |s| <= 63 && Alphanumeric(s[0]) && Alphanumeric(s[|s| - 1])
    && forall c <- s :: Alphanumeric(c) || c == '-'
  }

  predicate ValidLabels(s: string) {
    && '.' in s && ByteLen(s) <= 253
    && forall part <- Labels(s) :: ValidLabel(part)
  }

  predicate ValidDomain(s: string, isIp: IpTest) {
    ValidLabels(s) && !isIp(s)
  }

  predicate BareDomain(s: string, isIp: IpTest) {
    (forall c <- s :: !EndsBare(c)) && ValidDomain(s, isIp)
  }

  // --------------------------------------------------------------- modifiers

  function ModifierName(modifier: string): Option<string> {
    var m := Trim(TrimStart(TrimStart(Trim(modifier), Dollar), Tilde));
    if m == [] then None
    else
      var name := Trim(m[..Find(m, EqualSign)]);
      if name == [] then None else Some(Lower(name))
  }

  predicate ContainBadfilter(modifiers: string) {
    var names := Split(modifiers, Comma);
    && (forall m <- names :: ModifierName(m).Some?)
    && (exists m <- names :: ModifierName(m) == Some("badfilter"))
  }

  predicate DnsSafe(modifiers: string) {
    forall m <- Split(modifiers, Comma) ::
      ModifierName(m) in {Some("important"), Some("reason"), Some("noop")}
  }

  predicate LineContainsBadfilter(line: string) {
    match LastSplit(line, '$')
    case None => false
    case Some((_, modifiers)) => ContainBadfilter(modifiers)
  }

  // ------------------------------------------------------------ line parsers

  function Names(pieces: seq<string>, isIp: IpTest): seq<string> {
    if pieces == [] then []
    else (if ValidDomain(pieces[0], isIp) then [pieces[0]] else []) + Names(pieces[1..], isIp)
  }

  predicate BlockingAddress(ip: string) {
    ip in {"0.0.0.0", "127.0.0.1", "::", "::1"}
  }

  function HostsLine(line: string, isIp: IpTest): seq<string> {
    match SplitOnce(Trim(line), AsciiWhite)
    case None => []
    case Some((ip, rest)) =>
      if !BlockingAddress(ip) then []
      else Names(Split(rest[..Find(rest, Hash)], AsciiWhite), isIp)
  }

  /** `||domain^...`: the domain and its modifiers. */
  function DomainRule(line: string, isIp: IpTest): Option<(string, Option<string>)> {
    match StripPrefix(line, "||")
    case None => None
    case Some(rest) =>
      var end := Find(rest, CaretOrDollar);
      if !ValidDomain(rest[..end], isIp) then None
      else if end == |rest| || rest[end..] == "^" then Some((rest[..end], None))
      else
        match (if rest[end] == '^' then StripPrefix(rest[end + 1..], "$") else Some(rest[end + 1..]))
        case None => None
        case Some(modifiers) => if modifiers == [] then None else Some((rest[..end], Some(modifiers)))
  }

  function AfterScheme(s: string): Option<string> {
    match StripPrefix(s, "https://")
    case None => StripPrefix(s, "http://")
    case Some(rest) => Some(rest)
  }

  function FullRule(line: string, isIp: IpTest): Option<string> {
    match StripPrefix(line, "|")
    case None => None
    case Some(rest) =>
      match AfterScheme(rest)
      case None => None
      case Some(url) =>
        match StripSuffix(url, "|")
        case None => None
        case Some(domain) =>
          if (forall c <- domain :: c !in "/?#:") && ValidDomain(domain, isIp) then Some(domain) else None
  }

  function BareRule(line: string, isIp: IpTest): Option<(string, Option<string>)> {
    match SplitOnce(line, Dollar)
    case None => if BareDomain(line, isIp) then Some((line, None)) else None
    case Some((domain, modifiers)) =>
      if modifiers != [] && BareDomain(domain, isIp) then Some((domain, Some(modifiers))) else None
  }

  function LeadingDomain(line: string, isIp: IpTest): Option<string> {
    var domain := line[..Find(line, EndsBare)];
    if ValidDomain(domain, isIp) then Some(domain) else None
  }

  function HttpHost(line: string, isIp: IpTest): Option<string> {
    match AfterScheme(if "|" <= line then line[1..] else line)
    case None => None
    case Some(url) =>
      var host := url[..Find(url, EndsHost)];
      if ValidDomain(host, isIp) then Some(host) else None
  }

  /** The rule an exception or `badfilter` line subtracts. */
  function NegativeRule(line: string, isIp: IpTest): Option<Rule> {
    var anchored := if "||" <= line then line[2..][..Find(line[2..], EndsAnchored)] else "";
    if ValidDomain(anchored, isIp) then Some(Rule(Domain, Lower(anchored)))
    else match FullRule(line, isIp)
      case Some(domain) => Some(Rule(Full, Lower(domain)))
      case None =>
        match HttpHost(line, isIp)
        case Some(host) => Some(Rule(Full, Lower(host)))
        case None =>
          match LeadingDomain(line, isIp)
          case Some(domain) => Some(Rule(Domain, Lower(domain)))
          case None => None
  }

  function NegativeLine(line: string, isIp: IpTest): Line {
    match NegativeRule(line, isIp)
    case None => Skipped
    case Some(rule) => Negative(rule)
  }

  function DomainLine(rule: (string, Option<string>)): Line {
    if rule.1.Some? && (ContainBadfilter(rule.1.value) || !DnsSafe(rule.1.value)) then Skipped
    else Offered([Rule(Domain, Lower(rule.0))])
  }

  function FullRules(names: seq<string>): (rules: seq<Rule>)
    ensures |rules| == |names|
    ensures forall i :: 0 <= i < |names| ==> rules[i] == Rule(Full, Lower(names[i]))
  {
    seq(|names|, i requires 0 <= i < |names| => Rule(Full, Lower(names[i])))
  }

  predicate Ignored(line: string) {
    || line == [] || line[0] == '!' || line[0] == '#' || ByteLen(line) < 4
  }

  predicate Cosmetic(line: string) {
    || Contains(line, "##") || Contains(line, "#@#") || Contains(line, "#?#")
    || ("/" <= line && EndsWith(line, "/") && ByteLen(line) > 2)
  }

  function Classify(text: string, isIp: IpTest): Line {
    var line := Trim(text);
    if Ignored(line) then Skipped
    else if "@@" <= line then NegativeLine(line[2..], isIp)
    else if LineContainsBadfilter(line) then NegativeLine(line, isIp)
    else if Cosmetic(line) then Skipped
    else if HostsLine(line, isIp) != [] then Offered(FullRules(HostsLine(line, isIp)))
    else match DomainRule(line, isIp)
      case Some(rule) => DomainLine(rule)
      case None =>
        if FullRule(line, isIp).Some? then Skipped
        else match BareRule(line, isIp)
          case Some(rule) => DomainLine(rule)
          case None => Skipped
  }

  // -------------------------------------------------- every rule is a name

  /** A dotted name of valid labels, in lower case. */
  ghost predicate CleanName(s: string) {
    Lower(s) == s && ValidLabels(s)
  }

  ghost predicate CleanLine(line: Line) {
    match line
    case Skipped => true
    case Negative(rule) => CleanName(rule.value)
    case Offered(rules) => forall rule <- rules :: CleanName(rule.value)
  }

  ghost function LowerAll(pieces: seq<string>): (r: seq<string>)
    ensures |r| == |pieces| && forall i :: 0 <= i < |pieces| ==> r[i] == Lower(pieces[i])
  {
    seq(|pieces|, i requires 0 <= i < |pieces| => Lower(pieces[i]))
  }

  lemma FindLower(s: string)
    ensures Find(Lower(s), Dot) == Find(s, Dot)
  {
    var i, j := Find(Lower(s), Dot), Find(s, Dot);
    assert forall k :: 0 <= k < |s| ==> (Dot(Lower(s)[k]) <==> Dot(s[k]));
    assert i == j;
  }

  lemma {:induction false} SplitLower(s: string)
    ensures Labels(Lower(s)) == LowerAll(Labels(s))
    decreases |s|
  {
    var i := Find(s, Dot);
    FindLower(s);
    if i < |s| {
      assert Lower(s)[..i] == Lower(s[..i]);
      assert Lower(s)[i + 1..] == Lower(s[i + 1..]);
      SplitLower(s[i + 1..]);
    }
  }

  lemma {:induction false} ByteLenLower(s: string)
    ensures ByteLen(Lower(s)) == ByteLen(s)
  {
    if s != [] {
      assert Lower(s)[1..] == Lower(s[1..]);
      ByteLenLower(s[1..]);
    }
  }

  lemma LabelLower(s: string)
    requires ValidLabel(s)
    ensures ValidLabel(Lower(s))
  {
    forall c | c in Lower(s)
      ensures Alphanumeric(c) || c == '-'
    {
      var i :| 0 <= i < |s| && Lower(s)[i] == c;
      assert s[i] in s;
    }
  }

  lemma LabelsLower(s: string)
    requires forall part <- Labels(s) :: ValidLabel(part)
    ensures forall part <- Labels(Lower(s)) :: ValidLabel(part)
  {
    var raw, low := Labels(s), Labels(Lower(s));
    SplitLower(s);
    hide ValidLabel, Split, Labels;
    forall part | part in low
      ensures ValidLabel(part)
    {
      var i :| 0 <= i < |low| && low[i] == part;
      assert raw[i] in raw;
      LabelLower(raw[i]);
    }
  }

  lemma LowerIsClean(s: string)
    requires ValidLabels(s)
    ensures CleanName(Lower(s))
  {
    hide ValidLabel, Labels, Lower, ByteLen;
    ByteLenLower(s);
    LabelsLower(s);
    LowerTwice(s);
  }

  lemma {:induction false} NamesAreValid(pieces: seq<string>, isIp: IpTest)
    ensures forall name <- Names(pieces, isIp) :: ValidDomain(name, isIp)
  {
    if pieces != [] {
      NamesAreValid(pieces[1..], isIp);
    }
  }

  lemma HostsAreClean(line: string, isIp: IpTest)
    ensures CleanLine(Offered(FullRules(HostsLine(line, isIp))))
  {
    var names := HostsLine(line, isIp);
    var split := SplitOnce(Trim(line), AsciiWhite);
    if split.Some? {
      var rest := split.value.1;
      NamesAreValid(Split(rest[..Find(rest, Hash)], AsciiWhite), isIp);
    }
    hide HostsLine, CleanName;
    forall i | 0 <= i < |names|
      ensures CleanName(FullRules(names)[i].value)
    {
      assert names[i] in names;
      LowerIsClean(names[i]);
    }
  }

  lemma NegativeIsClean(line: string, isIp: IpTest)
    ensures CleanLine(NegativeLine(line, isIp))
  {
    forall raw: string | ValidLabels(raw)
      ensures CleanName(Lower(raw))
    {
      LowerIsClean(raw);
    }
    hide ValidLabels, CleanName;
  }

  lemma DomainIsClean(rule: (string, Option<string>))
    requires ValidLabels(rule.0)
    ensures CleanLine(DomainLine(rule))
  {
    LowerIsClean(rule.0);
  }

  lemma FoundIsValid(line: string, isIp: IpTest)
    ensures DomainRule(line, isIp).Some? ==> ValidLabels(DomainRule(line, isIp).value.0)
    ensures BareRule(line, isIp).Some? ==> ValidLabels(BareRule(line, isIp).value.0)
  {
    hide ValidLabels;
  }

  /** Whatever the text, every rule read from it carries a lower-case dotted name. */
  lemma EveryRuleIsClean(text: string, isIp: IpTest)
    ensures CleanLine(Classify(text, isIp))
  {
    hide CleanName, NegativeLine, HostsLine, DomainLine, DomainRule, BareRule, FullRule, FullRules;
    var line := Trim(text);
    NegativeIsClean(line, isIp);
    if "@@" <= line {
      NegativeIsClean(line[2..], isIp);
    }
    HostsAreClean(line, isIp);
    FoundIsValid(line, isIp);
    if DomainRule(line, isIp).Some? {
      DomainIsClean(DomainRule(line, isIp).value);
    }
    if BareRule(line, isIp).Some? {
      DomainIsClean(BareRule(line, isIp).value);
    }
  }
}
