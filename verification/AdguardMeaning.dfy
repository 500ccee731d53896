/** What a filter line denotes, from its text: which names each form of line blocks or exempts. */
module AdguardMeaning {
  import opened Adguard
  import opened AdguardLines
  import opened Options
  import opened Text

  // ---------------------------------------------------------- texts in general

  ghost predicate NameChar(c: char) {
    Alphanumeric(c) || c == '-' || c == '.'
  }

  lemma {:induction false} NoSplit(s: string, c: char)
    requires c !in s
    ensures LastSplit(s, c) == None
  {
    if s != [] {
      NoSplit(s[..|s| - 1], c);
    }
  }

  /** The last separator is found behind everything else. */
  lemma {:induction false} SplitsAtLast(left: string, c: char, right: string)
    requires c !in right
    ensures LastSplit(left + [c] + right, c) == Some((left, right))
    decreases |right|
  {
    var s := left + [c] + right;
    if right == [] {
      assert s == left + [c] && s[..|s| - 1] == left;
    } else {
      var k := |right| - 1;
      SplitsAtLast(left, c, right[..k]);
      assert s[..|s| - 1] == left + [c] + right[..k];
      assert right[..k] + [right[k]] == right && s[|s| - 1] == right[k];
    }
  }

  lemma {:induction false} NotContained(s: string, piece: string, c: char)
    requires c in piece && c !in s
    ensures !Contains(s, piece)
  {
    if s != [] {
      NotContained(s[1..], piece, c);
    }
    var i :| 0 <= i < |piece| && piece[i] == c;
  }

  lemma {:induction false} ContainsPiece(left: string, piece: string, right: string)
    ensures Contains(left + piece + right, piece)
  {
    var s := left + piece + right;
    if left == [] {
      assert s == piece + right;
    } else {
      ContainsPiece(left[1..], piece, right);
      assert s[1..] == left[1..] + piece + right;
    }
  }

  /** Pieces written one after the other with a separator between them. */
  ghost function Join(pieces: seq<string>, separator: char): string
    requires pieces != []
  {
    if |pieces| == 1 then pieces[0] else pieces[0] + [separator] + Join(pieces[1..], separator)
  }

  ghost predicate Free(pieces: seq<string>, p: char -> bool) {
    forall i, k | 0 <= i < |pieces| && 0 <= k < |pieces[i]| :: !p(pieces[i][k])
  }

  lemma FindFirst(s: string, p: char -> bool, i: nat)
    requires i <= |s| && (i < |s| ==> p(s[i])) && forall k | 0 <= k < i :: !p(s[k])
    ensures Find(s, p) == i
  {
    var j := Find(s, p);
  }

  /** Splitting undoes joining. */
  lemma {:induction false} SplitJoin(pieces: seq<string>, separator: char, p: char -> bool)
    requires pieces != [] && p(separator) && Free(pieces, p)
    ensures Split(Join(pieces, separator), p) == pieces
  {
    var s, head := Join(pieces, separator), pieces[0];
    if |pieces| == 1 {
      FindFirst(s, p, |s|);
    } else {
      var rest := Join(pieces[1..], separator);
      assert s == head + [separator] + rest && s[|head|] == separator && s[|head| + 1..] == rest && s[..|head|] == head;
      assert forall k | 0 <= k < |head| :: s[k] == head[k];
      FindFirst(s, p, |head|);
      assert forall i | 0 <= i < |pieces| - 1 :: pieces[1..][i] == pieces[i + 1];
      SplitJoin(pieces[1..], separator, p);
      assert [head] + pieces[1..] == pieces;
    }
  }

  // ----------------------------------------------------------------- margins

  ghost predicate AllWhite(s: string) {
    forall i | 0 <= i < |s| :: White(s[i])
  }

  lemma {:induction false} TrimStartMargin(margin: string, s: string)
    requires AllWhite(margin)
    ensures TrimStart(margin + s, White) == TrimStart(s, White)
  {
    hide White;
    if margin == [] {
      assert margin + s == s;
    } else {
      TrimStartMargin(margin[1..], s);
      assert (margin + s)[1..] == margin[1..] + s;
    }
  }

  lemma {:induction false} TrimEndMargin(s: string, margin: string)
    requires AllWhite(margin)
    ensures TrimEnd(s + margin, White) == TrimEnd(s, White)
    decreases |margin|
  {
    hide White;
    if margin == [] {
      assert s + margin == s;
    } else {
      var k := |margin| - 1;
      TrimEndMargin(s, margin[..k]);
      assert (s + margin)[..|s + margin| - 1] == s + margin[..k];
    }
  }

  /** White space around a line does not matter. */
  lemma MarginsAreIgnored(before: string, text: string, after: string, isIp: IpTest)
    requires AllWhite(before) && AllWhite(after) && text != "" && !White(text[0])
    ensures Classify(before + text + after, isIp) == Classify(text, isIp)
  {
    hide White, Classify;
    assert before + text + after == before + (text + after);
    TrimStartMargin(before, text + after);
    StartKept(text + after);
    StartKept(text);
    TrimEndMargin(text, after);
    SameTrim(before + text + after, text, isIp);
  }

  lemma StartKept(s: string)
    requires s != "" && !White(s[0])
    ensures TrimStart(s, White) == s
  {
    hide White;
  }

  lemma SameTrim(s: string, t: string, isIp: IpTest)
    requires Trim(s) == Trim(t)
    ensures Classify(s, isIp) == Classify(t, isIp)
  {
    hide Trim, Ignored, NegativeLine, LineContainsBadfilter, Cosmetic, HostsLine, DomainRule, FullRule, BareRule, DomainLine;
  }

  // ------------------------------------------------------------------- names

  lemma NameChars(d: string)
    requires ValidLabels(d)
    ensures forall i | 0 <= i < |d| :: NameChar(d[i])
  {
    forall i | 0 <= i < |d| ensures NameChar(d[i]) {
      if d[i] != '.' {
        hide Labels, ByteLen;
        LabelsCover(d, d[i]);
      }
    }
  }

  /** Two labels and a dot: a valid name has at least three characters. */
  lemma NameLength(d: string)
    requires ValidLabels(d)
    ensures |d| >= 3
  {
    var i := Find(d, Dot);
    assert Labels(d)[0] == d[..i] && Labels(d)[0] in Labels(d);
    assert i < |d| by { var k :| 0 <= k < |d| && d[k] == '.'; assert Dot(d[k]); }
    var rest := d[i + 1..];
    var first := Find(rest, Dot);
    assert Labels(rest)[0] == rest[..first];
    assert Labels(d) == [d[..i]] + Labels(rest);
    assert Labels(d)[1] == rest[..first] && Labels(d)[1] in Labels(d);
  }

  lemma {:induction false} AsciiLength(s: string)
    requires forall i | 0 <= i < |s| :: s[i] < '\U{80}'
    ensures ByteLen(s) == |s|
  {
    if s != [] {
      AsciiLength(s[1..]);
    }
  }

  /** The line stands trimmed, is long enough and starts like a rule, not like a comment. */
  ghost predicate Rulelike(line: string) {
    && |line| >= 4 && !White(line[0]) && !White(line[|line| - 1]) && line[0] != '!' && line[0] != '#' && !("@@" <= line)
  }

  lemma RulelikeStands(line: string)
    requires Rulelike(line)
    ensures Trim(line) == line && !Ignored(line)
  {
    hide White;
    TrimKeeps(line);
  }

  /** A rule-like line without dollar and hash goes straight to the parsers. */
  lemma PlainLine(line: string, isIp: IpTest)
    requires Rulelike(line) && '$' !in line && '#' !in line && line[0] != '/'
    ensures !LineContainsBadfilter(line) && !Cosmetic(line)
  {
    hide White, Contains;
    NoSplit(line, '$');
    NotCosmetic(line);
  }

  lemma NotCosmetic(line: string)
    requires line != "" && '#' !in line && line[0] != '/'
    ensures !Cosmetic(line)
  {
    hide Contains;
    NotContained(line, "##", '#');
    NotContained(line, "#@#", '#');
    NotContained(line, "#?#", '#');
  }

  /** No hosts line: the text before the first blank is not a blocking address. */
  lemma NotHosts(line: string, m: nat, isIp: IpTest)
    requires Trim(line) == line && m < |line| && (line[m] == '|' || line[m] == '$')
    requires forall k | 0 <= k < m :: !AsciiWhite(line[k])
    ensures HostsLine(line, isIp) == []
  {
    hide AsciiWhite, Trim;
    var split := SplitOnce(line, AsciiWhite);
    NotWhite(line[m]);
    if split.Some? {
      var ip := split.value.0;
      assert m < |ip| && ip[m] == line[m];
      assert !BlockingAddress(ip);
    }
  }

  lemma NotWhite(c: char)
    requires c == '|' || c == '$'
    ensures !AsciiWhite(c)
  {
  }

  /** A line without blanks is no hosts line. */
  lemma NoBlanks(line: string, isIp: IpTest)
    requires Trim(line) == line && forall k | 0 <= k < |line| :: !AsciiWhite(line[k])
    ensures HostsLine(line, isIp) == []
  {
    hide AsciiWhite, Trim;
  }

  // --------------------------------------------------------------- rule lines

  /** What the parsers for names make of a line. */
  ghost function Parsed(line: string, isIp: IpTest): Line {
    match DomainRule(line, isIp)
    case Some(rule) => DomainLine(rule)
    case None =>
      if FullRule(line, isIp).Some? then Skipped
      else match BareRule(line, isIp)
        case Some(rule) => DomainLine(rule)
        case None => Skipped
  }

  lemma ParsedAnchored(line: string, rule: (string, Option<string>), isIp: IpTest)
    requires DomainRule(line, isIp) == Some(rule)
    ensures Parsed(line, isIp) == DomainLine(rule)
  {
    hide DomainRule, DomainLine;
  }

  lemma ParsedNothing(line: string, isIp: IpTest)
    requires DomainRule(line, isIp) == None && BareRule(line, isIp) == None
    ensures Parsed(line, isIp) == Skipped
  {
    hide DomainRule, BareRule, FullRule, DomainLine;
  }

  lemma ParsedBare(line: string, isIp: IpTest)
    requires !("|" <= line)
    ensures Parsed(line, isIp) == match BareRule(line, isIp) case Some(rule) => DomainLine(rule) case None => Skipped
  {
    hide ValidDomain, Find, BareRule, DomainLine;
    assert !("||" <= line);
  }

  lemma ReadsBare(d: string, isIp: IpTest)
    requires BareDomain(d, isIp)
    ensures BareRule(d, isIp) == Some((d, None))
  {
    FindFirst(d, Dollar, |d|) by {
      forall i | 0 <= i < |d| ensures !Dollar(d[i]) { assert d[i] in d; }
    }
    hide BareDomain;
  }

  lemma ReadsModified(d: string, modifiers: string, isIp: IpTest)
    requires BareDomain(d, isIp) && Find(d + "$" + modifiers, Dollar) == |d|
    ensures BareRule(d + "$" + modifiers, isIp) == if modifiers == "" then None else Some((d, Some(modifiers)))
  {
    hide BareDomain, Find;
    var line := d + "$" + modifiers;
    assert line[..|d|] == d && line[|d| + 1..] == modifiers;
  }

  lemma GoesToParsers(line: string, isIp: IpTest)
    requires Rulelike(line) && !LineContainsBadfilter(line) && !Cosmetic(line) && HostsLine(line, isIp) == []
    ensures Classify(line, isIp) == Parsed(line, isIp)
  {
    RulelikeStands(line);
    hide Trim, Ignored, NegativeLine, LineContainsBadfilter, Cosmetic, HostsLine, DomainRule, FullRule, BareRule, DomainLine;
  }

  lemma GoesNegative(line: string, isIp: IpTest)
    requires Rulelike(line) && LineContainsBadfilter(line)
    ensures Classify(line, isIp) == NegativeLine(line, isIp)
  {
    RulelikeStands(line);
    hide Trim, Ignored, NegativeLine, LineContainsBadfilter, Cosmetic, HostsLine, DomainRule, FullRule, BareRule, DomainLine;
  }

  ghost function DomainOf(d: string): Line {
    Offered([Rule(Domain, Lower(d))])
  }

  lemma AnchoredRule(d: string, tail: string, isIp: IpTest)
    requires ValidDomain(d, isIp)
    ensures DomainRule("||" + d + "^" + tail, isIp) ==
            if tail == "" then Some((d, None))
            else if tail[0] == '$' && |tail| > 1 then Some((d, Some(tail[1..])))
            else None
  {
    NameChars(d);
    CaretFound(d, tail);
    hide ValidDomain, NameChar, Find;
    var line, rest := "||" + d + "^" + tail, d + "^" + tail;
    assert line[2..] == rest;
    assert rest[..|d|] == d && rest[|d| + 1..] == tail;
    assert tail == "" <==> rest[|d|..] == "^" by { assert rest[|d|..] == "^" + tail; }
  }

  lemma CaretFound(d: string, tail: string)
    requires forall i | 0 <= i < |d| :: NameChar(d[i])
    ensures Find(d + "^" + tail, CaretOrDollar) == |d|
  {
    var rest := d + "^" + tail;
    assert forall i | 0 <= i < |d| :: rest[i] == d[i] && NameChar(rest[i]);
    FindFirst(rest, CaretOrDollar, |d|);
  }

  /** `||name^` offers the name and everything below it. */
  lemma AnchoredLine(d: string, isIp: IpTest)
    requires ValidDomain(d, isIp)
    ensures Classify("||" + d + "^", isIp) == DomainOf(d)
  {
    var line := "||" + d + "^";
    NameChars(d);
    NameLength(d);
    AnchoredRule(d, "", isIp);
    assert line + "" == line;
    hide ValidDomain, DomainRule, Classify, LineContainsBadfilter, Cosmetic, HostsLine, Trim, Ignored, AsciiWhite, Lower;
    LineHead(line, d);
    hide NameChar, Rulelike;
    RulelikeStands(line);
    PlainLine(line, isIp);
    NotHosts(line, 0, isIp);
    GoesToParsers(line, isIp);
    hide Parsed;
    ParsedAnchored(line, (d, None), isIp);
  }

  lemma LineHead(line: string, d: string)
    requires line == "||" + d + "^" && forall i | 0 <= i < |d| :: NameChar(d[i])
    ensures |line| >= 3 && line[0] == '|' && '$' !in line && '#' !in line
    ensures d != "" ==> Rulelike(line)
  {
    assert forall i | 0 <= i < |line| :: line[i] == '|' || line[i] == '^' || NameChar(line[i]);
  }

  // ------------------------------------------------------------ negative rules

  /** The anchored name of a negative line ends at the first separator. */
  lemma AnchoredNegative(d: string, tail: string, isIp: IpTest)
    requires ValidDomain(d, isIp) && (tail == "" || EndsAnchored(tail[0]))
    ensures NegativeRule("||" + d + tail, isIp) == Some(Rule(Domain, Lower(d)))
  {
    NameChars(d);
    var line, rest := "||" + d + tail, d + tail;
    assert line[2..] == rest;
    assert forall i | 0 <= i < |d| :: rest[i] == d[i] && NameChar(rest[i]);
    FindFirst(rest, EndsAnchored, |d|);
    assert rest[..|d|] == d;
    hide ValidLabels;
  }

  /** The leading name of a negative line that is neither anchored nor a URL. */
  lemma LeadingNegative(d: string, tail: string, isIp: IpTest)
    requires ValidDomain(d, isIp) && (tail == "" || (EndsBare(tail[0]) && tail[0] != ':'))
    ensures NegativeRule(d + tail, isIp) == Some(Rule(Domain, Lower(d)))
  {
    NameChars(d);
    NameLength(d);
    var line := d + tail;
    BareFound(d, tail);
    assert line[..|d|] == d;
    assert !ValidDomain("", isIp);
    hide ValidDomain, Find, NameChar, EndsBare;
    assert !("||" <= line);
  }

  lemma BareFound(d: string, tail: string)
    requires d != "" && (forall i | 0 <= i < |d| :: NameChar(d[i])) && (tail == "" || (EndsBare(tail[0]) && tail[0] != ':'))
    ensures var line := d + tail;
            Find(line, EndsBare) == |d| && !("|" <= line) && !("https://" <= line) && !("http://" <= line)
  {
    var line := d + tail;
    assert forall i | 0 <= i < |d| :: line[i] == d[i] && NameChar(line[i]);
    FindFirst(line, EndsBare, |d|);
    NoScheme(line, |d|);
  }

  lemma NoScheme(line: string, n: nat)
    requires n <= |line| && forall i | 0 <= i < n :: NameChar(line[i])
    requires n < |line| ==> line[n] != ':' && !NameChar(line[n])
    requires n > 0
    ensures !("|" <= line) && !("https://" <= line) && !("http://" <= line)
  {
    assert NameChar(line[0]);
    assert "https://"[5] == ':' && "http://"[4] == ':';
    assert forall i | 0 <= i < 5 :: NameChar("https://"[i]);
    assert forall i | 0 <= i < 4 :: NameChar("http://"[i]);
  }

  ghost function Schemed(secure: bool): string {
    if secure then "https://" else "http://"
  }

  lemma SchemeStrips(secure: bool, rest: string)
    ensures AfterScheme(Schemed(secure) + rest) == Some(rest)
  {
    var url := Schemed(secure) + rest;
    assert secure ==> url[8..] == rest;
    assert !secure ==> url[7..] == rest && url[4] == ':' && "https://"[4] == 's';
  }

  /** A URL on a negative line stands for its host alone. */
  lemma UrlNegative(bar: bool, secure: bool, d: string, tail: string, isIp: IpTest)
    requires ValidDomain(d, isIp) && (tail == "" || EndsHost(tail[0]))
    ensures NegativeRule((if bar then "|" else "") + Schemed(secure) + d + tail, isIp) == Some(Rule(Full, Lower(d)))
  {
    var url := Schemed(secure) + (d + tail);
    var line := (if bar then "|" else "") + Schemed(secure) + d + tail;
    assert url[0] == 'h';
    assert line == (if bar then "|" else "") + url && (!bar ==> line == url);
    SchemeStrips(secure, d + tail);
    hide Schemed, ValidDomain, AfterScheme, EndsHost, Find;
    HostRead(bar, url, d, tail, isIp);
    FullIsHost(url, d, tail, isIp);
    NotAnchored(bar, url);
    UrlRead(line, d, isIp);
  }

  lemma NotAnchored(bar: bool, url: string)
    requires url != "" && url[0] == 'h'
    ensures !("||" <= (if bar then "|" else "") + url) && !("|" <= url)
  {
    var line := (if bar then "|" else "") + url;
    assert line[if bar then 1 else 0] == 'h';
  }

  lemma HostRead(bar: bool, url: string, d: string, tail: string, isIp: IpTest)
    requires ValidDomain(d, isIp) && (tail == "" || EndsHost(tail[0])) && AfterScheme(url) == Some(d + tail)
    requires url != "" && url[0] == 'h'
    ensures HttpHost((if bar then "|" else "") + url, isIp) == Some(d)
  {
    HostFound(d, tail, isIp);
    hide ValidDomain, AfterScheme, EndsHost, Find;
    var line := (if bar then "|" else "") + url;
    assert bar ==> line[1..] == url;
    assert !bar ==> line == url && line[0] == 'h';
  }

  lemma UrlRead(line: string, d: string, isIp: IpTest)
    requires !("||" <= line) && FullRule(line, isIp) in {None, Some(d)} && HttpHost(line, isIp) == Some(d)
    ensures NegativeRule(line, isIp) == Some(Rule(Full, Lower(d)))
  {
    assert !ValidDomain("", isIp);
    hide FullRule, HttpHost, LeadingDomain, ValidDomain;
  }

  lemma HostFound(d: string, tail: string, isIp: IpTest)
    requires ValidDomain(d, isIp) && (tail == "" || EndsHost(tail[0]))
    ensures Find(d + tail, EndsHost) == |d| && (d + tail)[..|d|] == d
  {
    NameChars(d);
    var rest := d + tail;
    assert forall i | 0 <= i < |d| :: rest[i] == d[i] && NameChar(rest[i]);
    FindFirst(rest, EndsHost, |d|);
  }

  /** When the full-URL form reads a name at all, it reads the host. */
  lemma FullIsHost(url: string, d: string, tail: string, isIp: IpTest)
    requires AfterScheme(url) == Some(d + tail) && ValidDomain(d, isIp) && (tail == "" || EndsHost(tail[0]))
    ensures FullRule("|" + url, isIp) in {None, Some(d)}
    ensures !("|" <= url) ==> FullRule(url, isIp) == None
  {
    assert ("|" + url)[1..] == url;
    var full := FullRule("|" + url, isIp);
    if full.Some? {
      var name := full.value;
      assert d + tail == name + "|" by { assert (d + tail)[..|d + tail| - 1] == name; }
      NameChars(d);
      NameChars(name);
      SameHost(d, tail, name);
    }
  }

  lemma SameHost(d: string, tail: string, name: string)
    requires d + tail == name + "|" && (tail == "" || EndsHost(tail[0]))
    requires (forall i | 0 <= i < |d| :: NameChar(d[i])) && (forall i | 0 <= i < |name| :: NameChar(name[i]))
    ensures name == d
  {
    var s := d + tail;
    assert s[..|d|] == d && s[..|name|] == name && s[|name|] == '|';
    assert forall i | 0 <= i < |d| :: s[i] == d[i] && NameChar(s[i]);
    assert forall i | 0 <= i < |name| :: s[i] == name[i] && NameChar(s[i]);
    FindFirst(s, EndsHost, |d|);
    FindFirst(s, EndsHost, |name|);
  }

  /** `@@` turns a line into an exception for what its rest stands for. */
  lemma ExceptionLine(rest: string, isIp: IpTest)
    requires |rest| >= 2 && !White(rest[|rest| - 1])
    ensures Classify("@@" + rest, isIp) == NegativeLine(rest, isIp)
  {
    var line := "@@" + rest;
    hide White, NegativeLine;
    AtSign();
    TrimKeeps(line);
    assert line[2..] == rest;
  }

  lemma AtSign()
    ensures !White('@') && !White('|') && !White('^') && !White('$') && !White('/')
    ensures forall c: char | NameChar(c) :: !White(c) && !AsciiWhite(c)
  {
  }

  /** `@@||name^` exempts the name and everything below it. */
  lemma AnchoredException(d: string, isIp: IpTest)
    requires ValidDomain(d, isIp)
    ensures Classify("@@||" + d + "^", isIp) == Negative(Rule(Domain, Lower(d)))
  {
    AtSign();
    hide ValidDomain, Classify, NegativeRule, White, Lower;
    AnchoredNegative(d, "^", isIp);
    ExceptionLine("||" + d + "^", isIp);
    assert "@@" + ("||" + d + "^") == "@@||" + d + "^";
  }

  /** So does `@@name`. */
  lemma BareException(d: string, isIp: IpTest)
    requires ValidDomain(d, isIp)
    ensures Classify("@@" + d, isIp) == Negative(Rule(Domain, Lower(d)))
  {
    NameChars(d);
    NameLength(d);
    AtSign();
    hide ValidDomain, Classify, NegativeRule, White, Lower, NameChar;
    LeadingNegative(d, "", isIp);
    assert d + "" == d;
    ExceptionLine(d, isIp);
  }

  /** `@@|https://name|` and `@@https://name` exempt exactly the name. */
  lemma UrlException(bar: bool, secure: bool, d: string, isIp: IpTest)
    requires ValidDomain(d, isIp)
    ensures Classify("@@" + ((if bar then "|" else "") + Schemed(secure) + d + (if bar then "|" else "")), isIp)
            == Negative(Rule(Full, Lower(d)))
  {
    var tail := if bar then "|" else "";
    assert tail == "" || EndsHost(tail[0]);
    hide *;
    UrlNegative(bar, secure, d, tail, isIp);
    var rest := (if bar then "|" else "") + Schemed(secure) + d + tail;
    UrlEnd(bar, secure, d, isIp);
    ExceptionLine(rest, isIp);
    NegativeOf(rest, Rule(Full, Lower(d)), isIp);
  }

  lemma NegativeOf(line: string, rule: Rule, isIp: IpTest)
    requires NegativeRule(line, isIp) == Some(rule)
    ensures NegativeLine(line, isIp) == Negative(rule)
  {
    hide NegativeRule;
  }

  lemma UrlEnd(bar: bool, secure: bool, d: string, isIp: IpTest)
    requires ValidDomain(d, isIp)
    ensures var rest := (if bar then "|" else "") + Schemed(secure) + d + (if bar then "|" else "");
            |rest| >= 2 && !White(rest[|rest| - 1])
  {
    NameChars(d);
    NameLength(d);
    AtSign();
    hide ValidDomain, White, Schemed, NameChar;
    var rest := (if bar then "|" else "") + Schemed(secure) + d + (if bar then "|" else "");
    assert rest[|rest| - 1] == if bar then '|' else d[|d| - 1];
  }

  // --------------------------------------------------------------- modifiers

  /** What modifiers make of a rule: `badfilter` turns it negative, one outside the harmless
      list drops it. */
  ghost function Modified(d: string, modifiers: string): Line {
    if ContainBadfilter(modifiers) then Negative(Rule(Domain, Lower(d)))
    else if DnsSafe(modifiers) then DomainOf(d)
    else Skipped
  }

  /** Modifiers that sit on one line: no second dollar, no hash, no blank at the end. */
  ghost predicate OneLine(modifiers: string) {
    '$' !in modifiers && '#' !in modifiers && (modifiers != "" ==> !White(modifiers[|modifiers| - 1]))
  }

  lemma NoModifier()
    ensures !ContainBadfilter("") && !DnsSafe("")
  {
    assert Split("", Comma) == [""];
    assert TrimStart("", White) == "" && TrimEnd("", White) == "";
    assert ModifierName("") == None;
    assert "" in Split("", Comma);
  }

  lemma DollarEnds(left: string, modifiers: string)
    requires '$' !in left && OneLine(modifiers)
    ensures var line := left + "$" + modifiers;
            && LineContainsBadfilter(line) == ContainBadfilter(modifiers)
            && Find(line, Dollar) == |left| && line[..|left|] == left && line[|left| + 1..] == modifiers
            && !White(line[|line| - 1])
            && ('#' !in left ==> '#' !in line)
  {
    hide ContainBadfilter, White;
    AtSign();
    var line := left + "$" + modifiers;
    SplitsAtLast(left, '$', modifiers);
    assert forall i | 0 <= i < |left| :: line[i] == left[i];
    FindFirst(line, Dollar, |left|);
    assert modifiers != "" ==> line[|line| - 1] == modifiers[|modifiers| - 1];
    assert modifiers == "" ==> line[|line| - 1] == '$';
  }

  /** A line with modifiers, once every parser has had its say. */
  lemma ModifiedLine(line: string, d: string, modifiers: string, isIp: IpTest)
    requires Rulelike(line) && !Cosmetic(line) && HostsLine(line, isIp) == []
    requires LineContainsBadfilter(line) == ContainBadfilter(modifiers)
    requires NegativeRule(line, isIp) == Some(Rule(Domain, Lower(d)))
    requires Parsed(line, isIp) == if modifiers == "" then Skipped else DomainLine((d, Some(modifiers)))
    ensures Classify(line, isIp) == Modified(d, modifiers)
  {
    hide Rulelike, Cosmetic, HostsLine, LineContainsBadfilter, ContainBadfilter, DnsSafe, NegativeRule, Parsed, Classify, Lower;
    NoModifier();
    if ContainBadfilter(modifiers) {
      GoesNegative(line, isIp);
    } else {
      GoesToParsers(line, isIp);
    }
  }

  lemma AnchoredParses(d: string, modifiers: string, isIp: IpTest)
    requires ValidDomain(d, isIp) && Find("||" + d + "^$" + modifiers, Dollar) == |d| + 3
    ensures Parsed("||" + d + "^$" + modifiers, isIp) == if modifiers == "" then Skipped else DomainLine((d, Some(modifiers)))
  {
    hide ValidDomain, DomainRule, BareRule, Parsed, DomainLine, Find;
    var line := "||" + d + "^$" + modifiers;
    AnchoredRule(d, "$" + modifiers, isIp);
    assert line == "||" + d + "^" + ("$" + modifiers) && ("$" + modifiers)[1..] == modifiers;
    if modifiers == "" {
      assert line[|d| + 4..] == "";
      NotBare(line, isIp);
      ParsedNothing(line, isIp);
    } else {
      ParsedAnchored(line, (d, Some(modifiers)), isIp);
    }
  }

  /** `||name^$modifiers`. */
  lemma AnchoredModifiedLine(d: string, modifiers: string, isIp: IpTest)
    requires ValidDomain(d, isIp) && OneLine(modifiers)
    ensures Classify("||" + d + "^$" + modifiers, isIp) == Modified(d, modifiers)
  {
    var line := "||" + d + "^$" + modifiers;
    NameChars(d);
    hide *;
    AnchoredStands(d, modifiers, line);
    AnchoredNegates(d, modifiers, line, isIp);
    AnchoredParses(d, modifiers, isIp);
    NotHosts(line, 0, isIp);
    ModifiedLine(line, d, modifiers, isIp);
  }

  lemma AnchoredStands(d: string, modifiers: string, line: string)
    requires line == "||" + d + "^$" + modifiers && OneLine(modifiers) && forall i | 0 <= i < |d| :: NameChar(d[i])
    ensures Rulelike(line) && Trim(line) == line && line[0] == '|' && !Cosmetic(line)
    ensures LineContainsBadfilter(line) == ContainBadfilter(modifiers) && Find(line, Dollar) == |d| + 3
  {
    hide *;
    var left := "||" + d + "^";
    LineHead(left, d);
    DollarEnds(left, modifiers);
    assert line == left + "$" + modifiers && line[0] == '|';
    BarRulelike(line);
    RulelikeStands(line);
    NotCosmetic(line);
  }

  lemma AnchoredNegates(d: string, modifiers: string, line: string, isIp: IpTest)
    requires line == "||" + d + "^$" + modifiers && ValidDomain(d, isIp)
    ensures NegativeRule(line, isIp) == Some(Rule(Domain, Lower(d)))
  {
    hide *;
    Caret();
    AnchoredNegative(d, "^$" + modifiers, isIp);
    assert line == "||" + d + ("^$" + modifiers);
  }

  lemma Caret()
    ensures EndsAnchored('^') && EndsBare('$')
  {
  }

  lemma BarRulelike(line: string)
    requires |line| >= 4 && line[0] == '|' && !White(line[|line| - 1])
    ensures Rulelike(line)
  {
  }

  lemma NotBare(line: string, isIp: IpTest)
    requires "||" <= line && Find(line, Dollar) < |line| && line[Find(line, Dollar) + 1..] == ""
    ensures BareRule(line, isIp) == None
  {
  }

  lemma BareChars(d: string, isIp: IpTest)
    requires ValidDomain(d, isIp)
    ensures BareDomain(d, isIp) && |d| >= 3 && ByteLen(d) == |d|
    ensures forall i | 0 <= i < |d| :: NameChar(d[i])
  {
    NameChars(d);
    NameLength(d);
    hide ValidLabels;
    assert forall i | 0 <= i < |d| :: NameChar(d[i]) ==> d[i] < '\U{80}' && !EndsBare(d[i]);
    AsciiLength(d);
  }

  lemma NameHead(d: string, line: string)
    requires |d| >= 3 && |line| >= 4 && d <= line && (forall i | 0 <= i < |d| :: NameChar(d[i])) && !White(line[|line| - 1])
    ensures Rulelike(line) && line[0] != '/' && !("||" <= line) && !("|" <= line)
  {
    assert line[0] == d[0] && NameChar(d[0]);
  }

  /** A bare name offers the name and everything below it; one of three characters is dropped
      with the other short lines. */
  lemma BareLine(d: string, isIp: IpTest)
    requires ValidDomain(d, isIp)
    ensures Classify(d, isIp) == if |d| < 4 then Skipped else DomainOf(d)
  {
    BareChars(d, isIp);
    AtSign();
    assert forall i | 0 <= i < |d| :: NameChar(d[i]) && d[i] != '$' && d[i] != '#';
    hide ValidDomain, BareDomain, White, AsciiWhite, NameChar, ByteLen, Trim, Lower;
    TrimKeeps(d);
    if |d| >= 4 {
      hide Classify, HostsLine, Cosmetic, LineContainsBadfilter;
      NameHead(d, d);
      PlainLine(d, isIp);
      NoBlanks(d, isIp);
      GoesToParsers(d, isIp);
      hide Rulelike, Parsed, BareRule;
      ParsedBare(d, isIp);
      ReadsBare(d, isIp);
    } else {
      Short(d, isIp);
    }
  }

  lemma Short(line: string, isIp: IpTest)
    requires Trim(line) == line && ByteLen(line) < 4
    ensures Classify(line, isIp) == Skipped
  {
    hide Trim, ByteLen, NegativeLine, LineContainsBadfilter, Cosmetic, HostsLine, DomainRule, FullRule, BareRule, DomainLine;
  }

  lemma BareParses(d: string, modifiers: string, isIp: IpTest)
    requires BareDomain(d, isIp) && Find(d + "$" + modifiers, Dollar) == |d| && !("|" <= d + "$" + modifiers)
    ensures Parsed(d + "$" + modifiers, isIp) == if modifiers == "" then Skipped else DomainLine((d, Some(modifiers)))
  {
    hide *;
    ParsedBare(d + "$" + modifiers, isIp);
    ReadsModified(d, modifiers, isIp);
  }

  /** `name$modifiers`. */
  lemma BareModifiedLine(d: string, modifiers: string, isIp: IpTest)
    requires ValidDomain(d, isIp) && OneLine(modifiers)
    ensures Classify(d + "$" + modifiers, isIp) == Modified(d, modifiers)
  {
    var line := d + "$" + modifiers;
    BareChars(d, isIp);
    hide *;
    BareStands(d, modifiers, line);
    BareNegates(d, modifiers, line, isIp);
    NotHosts(line, |d|, isIp);
    BareParses(d, modifiers, isIp);
    ModifiedLine(line, d, modifiers, isIp);
  }

  lemma BareNegates(d: string, modifiers: string, line: string, isIp: IpTest)
    requires line == d + "$" + modifiers && ValidDomain(d, isIp)
    ensures NegativeRule(line, isIp) == Some(Rule(Domain, Lower(d)))
  {
    hide *;
    Caret();
    LeadingNegative(d, "$" + modifiers, isIp);
    assert line == d + ("$" + modifiers);
  }

  lemma BareStands(d: string, modifiers: string, line: string)
    requires line == d + "$" + modifiers && OneLine(modifiers) && |d| >= 3 && forall i | 0 <= i < |d| :: NameChar(d[i])
    ensures Rulelike(line) && Trim(line) == line && !("|" <= line) && !Cosmetic(line)
    ensures LineContainsBadfilter(line) == ContainBadfilter(modifiers) && Find(line, Dollar) == |d|
    ensures line[|d|] == '$' && forall i | 0 <= i < |d| :: !AsciiWhite(line[i])
  {
    assert forall i | 0 <= i < |d| :: NameChar(d[i]) && d[i] != '$' && d[i] != '#';
    hide *;
    AtSign();
    DollarEnds(d, modifiers);
    NameHead(d, line);
    RulelikeStands(line);
    NotCosmetic(line);
    assert forall i | 0 <= i < |d| :: line[i] == d[i];
  }

  // ------------------------------------------------------- names of modifiers

  /** One modifier as it is written. */
  datatype Modifier = Modifier(negated: bool, name: string, value: Option<string>)

  ghost function Show(m: Modifier): string {
    (if m.negated then "~" else "") + m.name + (if m.value.Some? then "=" + m.value.value else "")
  }

  ghost predicate PlainChar(c: char) {
    !White(c) && c !in "$#,"
  }

  /** A modifier with a name of ordinary characters and any value on one line. */
  ghost predicate Plain(m: Modifier) {
    && m.name != "" && (forall i | 0 <= i < |m.name| :: PlainChar(m.name[i]) && m.name[i] != '=' && m.name[i] != '~')
    && (m.value.Some? ==> forall i | 0 <= i < |m.value.value| :: PlainChar(m.value.value[i]))
  }

  ghost predicate PlainText(s: string) {
    forall i | 0 <= i < |s| :: PlainChar(s[i])
  }

  lemma ShowIsPlain(m: Modifier)
    requires Plain(m)
    ensures PlainText(Show(m)) && Show(m) != ""
  {
    assert PlainChar('~') && PlainChar('=');
    hide PlainChar;
  }

  lemma PlainStands(s: string)
    requires PlainText(s) && s != ""
    ensures Trim(s) == s && TrimStart(s, Dollar) == s
  {
    assert PlainChar(s[0]) && PlainChar(s[|s| - 1]);
    hide White;
    TrimKeeps(s);
  }

  lemma TildeStrips(s: string, negated: bool)
    requires s != "" && s[0] != '~'
    ensures TrimStart((if negated then "~" else "") + s, Tilde) == s
  {
    var all := (if negated then "~" else "") + s;
    if negated {
      assert all[1..] == s && all[0] == '~';
    } else {
      assert all == s;
    }
  }

  /** The part of a modifier behind its negation. */
  ghost function Unnegated(m: Modifier): string {
    Show(m.(negated := false))
  }

  lemma ShowParts(m: Modifier)
    requires Plain(m)
    ensures Show(m) == (if m.negated then "~" else "") + Unnegated(m)
    ensures Unnegated(m) != "" && Unnegated(m)[0] == m.name[0] && m.name[0] != '~'
    ensures m.name <= Unnegated(m) && Find(Unnegated(m), EqualSign) == |m.name|
  {
    var rest := Unnegated(m);
    assert rest == m.name + (if m.value.Some? then "=" + m.value.value else "");
    assert forall i | 0 <= i < |m.name| :: rest[i] == m.name[i];
    FindFirst(rest, EqualSign, |m.name|);
  }

  lemma NameText(m: Modifier)
    requires Plain(m)
    ensures PlainText(m.name) && m.name != ""
  {
  }

  /** The name of a modifier is read without its negation, value and case. */
  lemma NameIsRead(m: Modifier)
    requires Plain(m)
    ensures ModifierName(Show(m)) == Some(Lower(m.name))
  {
    hide Plain, Show, Trim, TrimStart, PlainText, Lower, Find;
    ShowIsPlain(m);
    PlainStands(Show(m));
    ShowParts(m);
    TildeStrips(Unnegated(m), m.negated);
    ShowIsPlain(m.(negated := false)) by { PlainUnnegated(m); }
    PlainStands(Unnegated(m));
    NameText(m);
    PlainStands(m.name);
    assert Unnegated(m)[..|m.name|] == m.name;
  }

  lemma PlainUnnegated(m: Modifier)
    requires Plain(m)
    ensures Plain(m.(negated := false))
  {
  }

  ghost function ShowAll(list: seq<Modifier>): (texts: seq<string>)
    ensures |texts| == |list| && forall i | 0 <= i < |list| :: texts[i] == Show(list[i])
  {
    seq(|list|, i requires 0 <= i < |list| => Show(list[i]))
  }

  /** A comma list of modifiers holds `badfilter` exactly when one of them is so called, and is
      harmless exactly when each is `important`, `reason` or `noop`, in any case. */
  lemma ModifierList(list: seq<Modifier>)
    requires list != [] && forall m <- list :: Plain(m)
    ensures var text := Join(ShowAll(list), ',');
            && (ContainBadfilter(text) <==> exists m <- list :: Lower(m.name) == "badfilter")
            && (DnsSafe(text) <==> forall m <- list :: Lower(m.name) in {"important", "reason", "noop"})
  {
    var texts := ShowAll(list);
    forall i | 0 <= i < |list| ensures PlainText(texts[i]) && ModifierName(texts[i]) == Some(Lower(list[i].name)) {
      assert list[i] in list;
      ShowIsPlain(list[i]);
      NameIsRead(list[i]);
    }
    FreeOfCommas(texts);
    SplitJoin(texts, ',', Comma);
    hide ModifierName, Show, Plain, PlainText, Lower, Join, Split;
    ListRead(Join(texts, ','), texts, list);
  }

  lemma FreeOfCommas(texts: seq<string>)
    requires forall i | 0 <= i < |texts| :: PlainText(texts[i])
    ensures Free(texts, Comma)
  {
    forall i, k | 0 <= i < |texts| && 0 <= k < |texts[i]| ensures !Comma(texts[i][k]) {
      assert PlainText(texts[i]) && PlainChar(texts[i][k]);
    }
  }

  lemma ListRead(text: string, texts: seq<string>, list: seq<Modifier>)
    requires Split(text, Comma) == texts && |texts| == |list|
    requires forall i | 0 <= i < |list| :: ModifierName(texts[i]) == Some(Lower(list[i].name))
    ensures ContainBadfilter(text) <==> exists m <- list :: Lower(m.name) == "badfilter"
    ensures DnsSafe(text) <==> forall m <- list :: Lower(m.name) in {"important", "reason", "noop"}
  {
    hide ModifierName, Lower, Split;
    if i :| 0 <= i < |list| && Lower(list[i].name) == "badfilter" {
      assert texts[i] in texts && list[i] in list;
    }
    forall i | 0 <= i < |list| ensures texts[i] in texts && list[i] in list {}
  }

  // ------------------------------------------------------------- hosts lines

  /** The pieces that are not empty. */
  ghost function NonEmpty(pieces: seq<string>): seq<string> {
    if pieces == [] then [] else (if pieces[0] != "" then [pieces[0]] else []) + NonEmpty(pieces[1..])
  }

  lemma {:induction false} AllNames(pieces: seq<string>, isIp: IpTest)
    requires forall piece <- pieces :: piece == "" || ValidDomain(piece, isIp)
    ensures Names(pieces, isIp) == NonEmpty(pieces)
  {
    assert !ValidDomain("", isIp);
    hide ValidDomain;
    if pieces != [] {
      AllNames(pieces[1..], isIp);
    }
  }

  lemma {:induction false} JoinChars(pieces: seq<string>, separator: char, i: nat)
    requires pieces != [] && i < |Join(pieces, separator)|
    requires forall piece <- pieces, k | 0 <= k < |piece| :: NameChar(piece[k])
    ensures var c := Join(pieces, separator)[i]; c == separator || NameChar(c)
  {
    hide NameChar;
    assert pieces[0] in pieces;
    if |pieces| > 1 && i > |pieces[0]| {
      JoinChars(pieces[1..], separator, i - |pieces[0]| - 1);
    }
  }

  lemma {:induction false} JoinEnd(pieces: seq<string>, separator: char)
    requires pieces != [] && pieces[|pieces| - 1] != ""
    ensures Join(pieces, separator) != ""
    ensures Join(pieces, separator)[|Join(pieces, separator)| - 1] == pieces[|pieces| - 1][|pieces[|pieces| - 1]| - 1]
  {
    if |pieces| > 1 {
      var more := pieces[1..];
      assert more[|more| - 1] == pieces[|pieces| - 1];
      JoinEnd(more, separator);
      JoinStep(pieces, separator);
    }
  }

  lemma JoinStep(pieces: seq<string>, separator: char)
    requires |pieces| > 1
    ensures Join(pieces, separator) == pieces[0] + [separator] + Join(pieces[1..], separator)
  {
  }

  /** The end of a hosts line: nothing, or a comment. */
  ghost predicate Remark(tail: string) {
    tail == "" || (tail[0] == '#' && '#' !in tail[1..] && '$' !in tail && !White(tail[|tail| - 1]))
  }

  /** `address name name … # comment` with a blocking address offers exactly the names, nothing
      below them and nothing from the comment; blanks may repeat. */
  lemma BlockingHostsLine(ip: string, pieces: seq<string>, tail: string, isIp: IpTest)
    requires ip in {"0.0.0.0", "127.0.0.1", "::", "::1"} && pieces != [] && Remark(tail)
    requires forall piece <- pieces :: piece == "" || ValidDomain(piece, isIp)
    requires NonEmpty(pieces) != [] && (tail == "" ==> pieces[|pieces| - 1] != "")
    ensures Classify(ip + " " + (Join(pieces, ' ') + tail), isIp) == Offered(FullRules(NonEmpty(pieces)))
  {
    var rest := Join(pieces, ' ');
    assert BlockingAddress(ip);
    forall d | d in pieces ensures forall i | 0 <= i < |d| :: NameChar(d[i]) {
      if d != "" {
        NameChars(d);
      }
    }
    hide *;
    HostsRest(pieces, rest, tail, isIp);
    AllNames(pieces, isIp);
    HostsText(ip, rest, tail);
    HostsRead(ip, rest, tail, pieces, isIp);
    HostsFirst(ip + " " + (rest + tail), NonEmpty(pieces), isIp);
  }

  lemma HostsRest(pieces: seq<string>, rest: string, tail: string, isIp: IpTest)
    requires pieces != [] && rest == Join(pieces, ' ') && (tail == "" ==> pieces[|pieces| - 1] != "")
    requires forall d <- pieces, i | 0 <= i < |d| :: NameChar(d[i])
    ensures forall i | 0 <= i < |rest| :: rest[i] == ' ' || NameChar(rest[i])
    ensures tail == "" ==> rest != "" && NameChar(rest[|rest| - 1])
    ensures Split(rest, AsciiWhite) == pieces
  {
    hide Join, Split, Alphanumeric, NameChar;
    forall i | 0 <= i < |rest| ensures rest[i] == ' ' || NameChar(rest[i]) {
      JoinChars(pieces, ' ', i);
    }
    var last := pieces[|pieces| - 1];
    assert last in pieces;
    if last != "" {
      JoinEnd(pieces, ' ');
    }
    AtSign();
    forall i, k | 0 <= i < |pieces| && 0 <= k < |pieces[i]| ensures !AsciiWhite(pieces[i][k]) {
      assert pieces[i] in pieces;
      assert NameChar(pieces[i][k]);
    }
    SplitJoin(pieces, ' ', AsciiWhite);
  }

  ghost predicate AddressChar(c: char) {
    '0' <= c <= '9' || c == '.' || c == ':'
  }

  lemma AddressChars(ip: string)
    requires BlockingAddress(ip)
    ensures |ip| >= 2 && forall i | 0 <= i < |ip| :: AddressChar(ip[i])
  {
  }

  /** At most one hash: no cosmetic mark fits in. */
  lemma {:induction false} OneHash(left: string, right: string, mark: string)
    requires mark in {"##", "#@#", "#?#"} && '#' !in left && (right == "" || (right[0] == '#' && '#' !in right[1..]))
    ensures !Contains(left + right, mark)
    decreases |left|
  {
    var s := left + right;
    if left == "" {
      assert s == right;
      if right != "" {
        NotContained(right[1..], mark, '#');
      }
      assert mark[|mark| - 1] == '#' && |mark| >= 2;
    } else {
      OneHash(left[1..], right, mark);
      assert s[1..] == left[1..] + right && s[0] == left[0] && mark[0] == '#';
    }
  }

  lemma HostsText(ip: string, rest: string, tail: string)
    requires BlockingAddress(ip) && Remark(tail) && (tail == "" ==> rest != "" && NameChar(rest[|rest| - 1]))
    requires forall i | 0 <= i < |rest| :: rest[i] == ' ' || NameChar(rest[i])
    ensures var line := ip + " " + (rest + tail);
            Rulelike(line) && '$' !in line && line[0] != '/' && !Cosmetic(line)
  {
    var left := ip + " " + rest;
    HostsLeft(ip, rest);
    assert ip + " " + (rest + tail) == left + tail;
    hide BlockingAddress, Contains, NameChar;
    AtSign();
    OneHash(left, tail, "##");
    OneHash(left, tail, "#@#");
    OneHash(left, tail, "#?#");
    assert (left + tail)[|left + tail| - 1] == if tail == "" then rest[|rest| - 1] else tail[|tail| - 1];
  }

  lemma HostsLeft(ip: string, rest: string)
    requires BlockingAddress(ip) && forall i | 0 <= i < |rest| :: rest[i] == ' ' || NameChar(rest[i])
    ensures var left := ip + " " + rest;
            && |left| >= 3 && '$' !in left && '#' !in left
            && left[0] != '!' && left[0] != '/' && left[0] != '@' && !White(left[0])
  {
    AddressChars(ip);
    hide BlockingAddress;
    var left := ip + " " + rest;
    assert forall i | 0 <= i < |left| :: AddressChar(left[i]) || left[i] == ' ' || NameChar(left[i]);
    assert AddressChar(left[0]);
  }

  lemma HostsRead(ip: string, rest: string, tail: string, pieces: seq<string>, isIp: IpTest)
    requires BlockingAddress(ip) && Split(rest, AsciiWhite) == pieces && Remark(tail)
    requires forall i | 0 <= i < |rest| :: rest[i] == ' ' || NameChar(rest[i])
    requires Rulelike(ip + " " + (rest + tail))
    ensures HostsLine(ip + " " + (rest + tail), isIp) == Names(pieces, isIp)
  {
    hide *;
    var line := ip + " " + (rest + tail);
    RulelikeStands(line);
    AddressSplits(ip, rest + tail);
    HashEnds(rest, tail);
    HostsParts(line, ip, rest + tail, rest, isIp);
  }

  lemma HashEnds(rest: string, tail: string)
    requires Remark(tail) && forall i | 0 <= i < |rest| :: rest[i] == ' ' || NameChar(rest[i])
    ensures Find(rest + tail, Hash) == |rest| && (rest + tail)[..|rest|] == rest
  {
    var s := rest + tail;
    assert forall i | 0 <= i < |rest| :: s[i] == rest[i];
    FindFirst(s, Hash, |rest|);
  }

  lemma AddressSplits(ip: string, rest: string)
    requires BlockingAddress(ip)
    ensures SplitOnce(ip + " " + rest, AsciiWhite) == Some((ip, rest))
  {
    var line := ip + " " + rest;
    AddressChars(ip);
    hide BlockingAddress;
    assert forall i | 0 <= i < |ip| :: line[i] == ip[i] && AddressChar(line[i]);
    FindFirst(line, AsciiWhite, |ip|);
    assert line[..|ip|] == ip && line[|ip| + 1..] == rest;
  }

  lemma HostsParts(line: string, ip: string, behind: string, rest: string, isIp: IpTest)
    requires Trim(line) == line && SplitOnce(line, AsciiWhite) == Some((ip, behind)) && BlockingAddress(ip)
    requires Find(behind, Hash) == |rest| && behind[..|rest|] == rest
    ensures HostsLine(line, isIp) == Names(Split(rest, AsciiWhite), isIp)
  {
    hide Trim, SplitOnce, Names, Split, BlockingAddress, Find;
  }

  lemma HostsFirst(line: string, names: seq<string>, isIp: IpTest)
    requires Rulelike(line) && '$' !in line && !Cosmetic(line)
    requires HostsLine(line, isIp) == names && names != []
    ensures Classify(line, isIp) == Offered(FullRules(names))
  {
    RulelikeStands(line);
    NoSplit(line, '$');
    hide HostsLine, FullRules, Trim, Ignored, NegativeLine, Cosmetic, DomainRule, FullRule, BareRule;
  }

  // ------------------------------------------------------------ skipped lines

  lemma FirstStays(text: string)
    requires text != "" && !White(text[0])
    ensures Trim(text) != "" && Trim(text)[0] == text[0]
  {
    StartKept(text);
    EndKept(text);
  }

  lemma {:induction false} EndKept(s: string)
    requires s != "" && !White(s[0])
    ensures TrimEnd(s, White) != "" && TrimEnd(s, White)[0] == s[0]
  {
    hide White;
    if White(s[|s| - 1]) {
      EndKept(s[..|s| - 1]);
    }
  }

  /** Comments are skipped, whatever they say. */
  lemma CommentLine(text: string, isIp: IpTest)
    requires text != "" && (text[0] == '!' || text[0] == '#')
    ensures Classify(text, isIp) == Skipped
  {
    FirstStays(text);
    hide Trim, NegativeLine, LineContainsBadfilter, Cosmetic, HostsLine, DomainRule, FullRule, BareRule, DomainLine;
  }

  /** Cosmetic rules are skipped wherever their mark stands. */
  lemma CosmeticLine(left: string, mark: string, right: string, isIp: IpTest)
    requires mark in {"##", "#@#", "#?#"} && '$' !in left + mark + right
    requires var line := left + mark + right; Trim(line) == line && !("@@" <= line)
    ensures Classify(left + mark + right, isIp) == Skipped
  {
    ContainsPiece(left, mark, right);
    NoSplit(left + mark + right, '$');
    hide Trim, Ignored, NegativeLine, HostsLine, DomainRule, FullRule, BareRule, DomainLine, Contains;
  }

  /** So are regular expressions. */
  lemma RegexLine(body: string, isIp: IpTest)
    requires '$' !in body
    ensures Classify("/" + body + "/", isIp) == Skipped
  {
    var line := "/" + body + "/";
    AtSign();
    TrimKeeps(line);
    NoSplit(line, '$');
    assert line[|line| - 1..] == "/";
    hide Trim, NegativeLine, HostsLine, DomainRule, FullRule, BareRule, DomainLine, Contains;
    if body == "" {
      assert line == "//";
      AsciiLength(line);
    }
  }

  /** `|https://name|` names one URL and is dropped, since a name cannot stand for it. */
  lemma FullUrlLine(secure: bool, d: string, isIp: IpTest)
    requires ValidDomain(d, isIp)
    ensures Classify("|" + Schemed(secure) + d + "|", isIp) == Skipped
  {
    var line := "|" + Schemed(secure) + d + "|";
    NameChars(d);
    UrlChars(line, secure, d);
    hide *;
    RulelikeStands(line);
    PlainLine(line, isIp);
    NotHosts(line, 0, isIp);
    GoesToParsers(line, isIp);
    FullUrlReads(line, secure, d, isIp);
    ParsedFull(line, isIp);
  }

  lemma UrlChars(line: string, secure: bool, d: string)
    requires line == "|" + Schemed(secure) + d + "|" && forall i | 0 <= i < |d| :: NameChar(d[i])
    ensures Rulelike(line) && line[0] == '|' && line[1] == 'h' && '$' !in line && '#' !in line
  {
    assert forall i | 0 <= i < |line| :: line[i] == '|' || line[i] == ':' || line[i] == '/' || NameChar(line[i]);
  }

  lemma FullUrlReads(line: string, secure: bool, d: string, isIp: IpTest)
    requires line == "|" + Schemed(secure) + d + "|" && ValidDomain(d, isIp) && |line| > 1 && line[1] == 'h'
    ensures FullRule(line, isIp) == Some(d) && DomainRule(line, isIp) == None
  {
    NameChars(d);
    assert forall c <- d :: NameChar(c) && c !in "/?#:";
    hide *;
    var url := Schemed(secure) + (d + "|");
    assert line == "|" + url && line[1..] == url;
    SchemeStrips(secure, d + "|");
    FullParts(line, d, isIp);
  }

  lemma FullParts(line: string, d: string, isIp: IpTest)
    requires "|" <= line && !("||" <= line) && AfterScheme(line[1..]) == Some(d + "|")
    requires (forall c <- d :: c !in "/?#:") && ValidDomain(d, isIp)
    ensures FullRule(line, isIp) == Some(d) && DomainRule(line, isIp) == None
  {
    hide ValidDomain, AfterScheme;
    assert (d + "|")[..|d|] == d && (d + "|")[|d|..] == "|";
  }

  lemma ParsedFull(line: string, isIp: IpTest)
    requires FullRule(line, isIp).Some? && DomainRule(line, isIp) == None
    ensures Parsed(line, isIp) == Skipped
  {
    hide FullRule, DomainRule, BareRule;
  }

  // ------------------------------------------------------------ whole lists

  lemma {:induction false} CandidateLine(lines: seq<Line>, rule: Rule)
    ensures rule in Candidates(lines) <==> exists i :: 0 <= i < |lines| && rule in OfferedBy(lines[i])
  {
    if lines != [] {
      var front := lines[..|lines| - 1];
      CandidateLine(front, rule);
      hide OfferedBy;
      assert forall i | 0 <= i < |front| :: front[i] == lines[i];
    }
  }

  lemma {:induction false} NegativeLineOf(lines: seq<Line>, rule: Rule)
    ensures rule in Negatives(lines) <==> exists i :: 0 <= i < |lines| && lines[i] == Negative(rule)
  {
    if lines != [] {
      var front := lines[..|lines| - 1];
      NegativeLineOf(front, rule);
      assert forall i | 0 <= i < |front| :: front[i] == lines[i];
    }
  }

  /** Some rule of the compiled list matches the name. */
  ghost predicate Blocks(texts: seq<string>, isIp: IpTest, name: string) {
    exists rule <- Compiled(ClassifyAll(texts, isIp)) :: Matches(rule, name)
  }

  /** Line `j` exempts some name that the rule stands for. */
  ghost predicate Spoils(texts: seq<string>, isIp: IpTest, j: nat, rule: Rule) {
    j < |texts| && Classify(texts[j], isIp).Negative? && Intersect(rule, Classify(texts[j], isIp).rule)
  }

  /** The names a list blocks, line by line: a name is blocked exactly when some line offers a
      rule for it that shares no name with any negative line. */
  lemma BlockedNames(texts: seq<string>, isIp: IpTest, name: string)
    ensures Blocks(texts, isIp, name) <==>
            exists i, rule :: 0 <= i < |texts| && rule in OfferedBy(Classify(texts[i], isIp)) && Matches(rule, name)
                              && forall j: nat :: !Spoils(texts, isIp, j, rule)
  {
    var lines := ClassifyAll(texts, isIp);
    forall rule: Rule
      ensures rule in Compiled(lines) <==>
              (exists i :: 0 <= i < |texts| && rule in OfferedBy(Classify(texts[i], isIp)))
              && forall j: nat :: !Spoils(texts, isIp, j, rule)
    {
      CompiledRule(texts, isIp, rule);
    }
    hide Compiled, OfferedBy, Classify, Matches, Spoils, ClassifyAll;
  }

  lemma CompiledRule(texts: seq<string>, isIp: IpTest, rule: Rule)
    ensures rule in Compiled(ClassifyAll(texts, isIp)) <==>
            (exists i :: 0 <= i < |texts| && rule in OfferedBy(Classify(texts[i], isIp)))
            && forall j: nat :: !Spoils(texts, isIp, j, rule)
  {
    hide Classify, OfferedBy, Compiled, Candidates, Negatives, Intersect;
    var lines := ClassifyAll(texts, isIp);
    OutputIsExact(lines, rule);
    CandidateLine(lines, rule);
    SpoiledRule(texts, isIp, rule);
    assert forall i | 0 <= i < |texts| :: lines[i] == Classify(texts[i], isIp);
  }

  lemma SpoiledRule(texts: seq<string>, isIp: IpTest, rule: Rule)
    ensures (exists n <- Negatives(ClassifyAll(texts, isIp)) :: Intersect(rule, n)) <==>
            exists j: nat :: Spoils(texts, isIp, j, rule)
  {
    hide Classify, Negatives, Intersect;
    var lines := ClassifyAll(texts, isIp);
    forall n: Rule
      ensures n in Negatives(lines) <==> exists i :: 0 <= i < |lines| && lines[i] == Negative(n)
    {
      NegativeLineOf(lines, n);
    }
    if j: nat :| Spoils(texts, isIp, j, rule) {
      assert lines[j] == Negative(Classify(texts[j], isIp).rule);
    }
    if n :| n in Negatives(lines) && Intersect(rule, n) {
      var i :| 0 <= i < |lines| && lines[i] == Negative(n);
      assert Spoils(texts, isIp, i, rule);
    }
  }

  /** A line `||name^` blocks the name and everything below it, in any letter case, unless a
      negative line touches one of these names. */
  lemma AnchoredLineBlocks(texts: seq<string>, isIp: IpTest, i: nat, d: string, name: string)
    requires i < |texts| && texts[i] == "||" + d + "^" && ValidDomain(d, isIp)
    requires forall j: nat :: !Spoils(texts, isIp, j, Rule(Domain, Lower(d)))
    requires name == Lower(d) || EndsWith(name, "." + Lower(d))
    ensures Blocks(texts, isIp, name)
  {
    hide Classify, ValidDomain, Lower, Spoils, Blocks;
    AnchoredLine(d, isIp);
    BlockedNames(texts, isIp, name);
    var rule := Rule(Domain, Lower(d));
    assert rule in OfferedBy(Classify(texts[i], isIp)) && Matches(rule, name);
  }

  /** A line `@@||name^` anywhere exempts the name and everything below it. */
  lemma ExceptionUnblocks(texts: seq<string>, isIp: IpTest, j: nat, d: string, name: string)
    requires j < |texts| && texts[j] == "@@||" + d + "^" && ValidDomain(d, isIp)
    requires name == Lower(d) || EndsWith(name, "." + Lower(d))
    ensures !Blocks(texts, isIp, name)
  {
    hide Classify, ValidDomain, Lower, Compiled;
    AnchoredException(d, isIp);
    var lines := ClassifyAll(texts, isIp);
    var negative := Rule(Domain, Lower(d));
    assert lines[j] == Negative(negative);
    NegativeLineOf(lines, negative);
    forall rule | rule in Compiled(lines) ensures !Matches(rule, name) {
      NegativesWin(lines, rule, negative, name);
    }
  }
}
