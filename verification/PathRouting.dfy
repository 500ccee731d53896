/** Gateway routing: host rules, path groups, trailing-slash redirects and prefix stripping. */
module PathRouting {
  import opened Options
  import opened Text

  datatype Group = Group(prefix: string, strip: bool)

  datatype Matcher = Host(groups: seq<Group>) | LegacyPathPrefix(prefix: string) | SniProxy

  datatype Rule = Rule(enabled: bool, domains: seq<string>, matcher: Matcher)

  // ---------------------------------------------------------------- prefixes

  predicate Slash(c: char) {
    c == '/'
  }

  function Normalized(prefix: string): string {
    var trimmed := Trim(prefix);
    if trimmed == "/" then "/" else TrimEnd(trimmed, Slash)
  }

  predicate Covers(prefix: string, path: string) {
    var normal := Normalized(prefix);
    if normal == "/" then "/" <= path
    else path == normal || (normal <= path && (path[|normal|..] == "" || "/" <= path[|normal|..]))
  }

  function Length(group: Group): nat {
    ByteLen(Normalized(group.prefix))
  }

  /** The last of the longest groups that cover the path. */
  function Chosen(groups: seq<Group>, path: string): (r: Option<nat>)
    ensures r.Some? ==> r.value < |groups| && Covers(groups[r.value].prefix, path)
  {
    if groups == [] then None
    else
      var last := |groups| - 1;
      var best := Chosen(groups[..last], path);
      if Covers(groups[last].prefix, path) && (best.None? || Length(groups[last]) >= Length(groups[best.value]))
      then Some(last) else best
  }

  function SplitTarget(target: string): (string, Option<string>) {
    match SplitOnce(target, c => c == '?')
    case None => (target, None)
    case Some((path, query)) => (path, Some(query))
  }

  function Joined(path: string, query: Option<string>): string {
    if query.Some? then path + "?" + query.value else path
  }

  function Rewritten(target: string, prefix: string): string {
    var (path, query) := SplitTarget(target);
    if !Covers(prefix, path) then target
    else
      var normal := Normalized(prefix);
      if normal == "/" then Joined(path, query)
      else if path == normal then Joined("/", query)
      else
        var rest := if normal <= path then path[|normal|..] else path;
        Joined(if rest == "" then "/" else if "/" <= rest then rest else "/" + rest, query)
  }

  function Redirect(target: string, prefix: Option<string>): Option<string> {
    if prefix.None? then None
    else
      var normal := Normalized(prefix.value);
      if normal == "/" || normal + "/" <= target then None
      else
        var (path, query) := SplitTarget(target);
        if path != normal then None else Some(Joined(normal + "/", query))
  }

  // -------------------------------------------------------- whole-route match

  predicate WildcardMatches(pattern: string, host: string) {
    "*." <= pattern &&
    var suffix, low := Lower(pattern[2..]), Lower(host);
    EndsWith(low, suffix) &&
    var cut := |low| - |suffix|;
    cut > 0 && low[cut - 1] == '.'
  }

  predicate DomainMatches(domains: seq<string>, host: string, wildcard: bool) {
    exists d <- domains ::
      if wildcard then "*." <= d && WildcardMatches(d, host)
      else !("*." <= d) && Lower(d) == Lower(host)
  }

  function FirstWhere(rules: seq<Rule>, p: Rule -> bool): (r: Option<nat>)
    ensures r.Some? ==> r.value < |rules| && p(rules[r.value]) && forall i :: 0 <= i < r.value ==> !p(rules[i])
    ensures r.None? ==> forall i :: 0 <= i < |rules| ==> !p(rules[i])
  {
    if rules == [] then None
    else if p(rules[0]) then Some(0)
    else match FirstWhere(rules[1..], p)
      case None => None
      case Some(i) => Some(i + 1)
  }

  function HostRule(rules: seq<Rule>, host: string, wildcard: bool): Option<nat> {
    FirstWhere(rules, (r: Rule) => r.enabled && r.matcher.Host? && DomainMatches(r.domains, host, wildcard))
  }

  function LegacyRule(rules: seq<Rule>, host: Option<string>, path: string, wildcard: bool): Option<nat> {
    FirstWhere(rules, (r: Rule) =>
      && r.enabled && r.matcher.LegacyPathPrefix?
      && (if host.None? then r.domains == [] else r.domains != [] && DomainMatches(r.domains, host.value, wildcard))
      && Covers(r.matcher.prefix, path))
  }

  /** The rule that serves a request and, for a host rule, its path group. */
  datatype Route = Route(rule: nat, group: Option<nat>)

  function OrElse(a: Option<nat>, b: Option<nat>): Option<nat> {
    if a.Some? then a else b
  }

  function Routed(rules: seq<Rule>, host: Option<string>, path: string): (r: Option<Route>)
    ensures r.Some? ==> r.value.rule < |rules|
    ensures r.Some? && r.value.group.Some? ==>
              && rules[r.value.rule].matcher.Host?
              && r.value.group == Chosen(rules[r.value.rule].matcher.groups, path)
  {
    var hostRule := if host.None? then None
                    else OrElse(HostRule(rules, host.value, false), HostRule(rules, host.value, true));
    if hostRule.Some? then Some(Route(hostRule.value, Chosen(rules[hostRule.value].matcher.groups, path)))
    else
      var legacy := if host.None? then None
                    else OrElse(LegacyRule(rules, host, path, false), LegacyRule(rules, host, path, true));
      var chosen := OrElse(legacy, LegacyRule(rules, None, path, false));
      if chosen.Some? then Some(Route(chosen.value, None)) else None
  }

  function MatchedPrefix(rules: seq<Rule>, host: Option<string>, path: string): Option<string> {
    match Routed(rules, host, path)
    case Some(Route(rule, Some(group))) => Some(rules[rule].matcher.groups[group].prefix)
    case _ => None
  }

  /** The prefix to strip, when the request's group asks for it. */
  function StrippedPrefix(rules: seq<Rule>, host: Option<string>, path: string): Option<string> {
    match Routed(rules, host, path)
    case Some(Route(rule, Some(group))) =>
      var g := rules[rule].matcher.groups[group];
      if g.strip then Some(g.prefix) else None
    case _ => None
  }

  /** The request target the upstream gets. */
  function Forwarded(rules: seq<Rule>, host: Option<string>, target: string): string {
    match StrippedPrefix(rules, host, SplitTarget(target).0)
    case None => target
    case Some(prefix) => Rewritten(target, prefix)
  }

  /** Where a request is redirected, if it is. */
  function Redirected(rules: seq<Rule>, host: Option<string>, target: string): Option<string> {
    Redirect(target, MatchedPrefix(rules, host, SplitTarget(target).0))
  }

  // --------------------------------------------------------- longest matches

  lemma {:induction false} ByteLenConcat(a: string, b: string)
    ensures ByteLen(a + b) == ByteLen(a) + ByteLen(b)
  {
    if a == [] {
      assert a + b == b;
    } else {
      ByteLenConcat(a[1..], b);
      assert (a + b)[1..] == a[1..] + b;
    }
  }

  lemma SameLengthSamePrefix(a: string, b: string, path: string)
    requires a <= path && b <= path && |a| <= |b| && ByteLen(a) == ByteLen(b)
    ensures a == b
  {
    assert b == a + b[|a|..];
    ByteLenConcat(a, b[|a|..]);
  }

  lemma CoveredStartsWith(prefix: string, path: string)
    requires Covers(prefix, path)
    ensures Normalized(prefix) <= path
  {
  }

  lemma {:induction false} ChosenIsLongest(groups: seq<Group>, path: string, i: nat)
    requires i < |groups| && Covers(groups[i].prefix, path)
    ensures Chosen(groups, path).Some?
    ensures var j := Chosen(groups, path).value;
            Length(groups[i]) < Length(groups[j]) || (Length(groups[i]) == Length(groups[j]) && i <= j)
  {
    hide Covers, Length;
    var last := |groups| - 1;
    if i < last {
      ChosenIsLongest(groups[..last], path, i);
    }
  }

  /** Every covering group as long as the chosen one has the chosen group's normalized prefix. */
  lemma LongestAgree(groups: seq<Group>, path: string, i: nat)
    requires i < |groups| && Covers(groups[i].prefix, path)
    requires Chosen(groups, path).Some? && Length(groups[i]) == Length(groups[Chosen(groups, path).value])
    ensures Normalized(groups[i].prefix) == Normalized(groups[Chosen(groups, path).value].prefix)
  {
    var a, b := groups[i].prefix, groups[Chosen(groups, path).value].prefix;
    CoveredStartsWith(a, path);
    CoveredStartsWith(b, path);
    hide Normalized;
    if |Normalized(a)| <= |Normalized(b)| {
      SameLengthSamePrefix(Normalized(a), Normalized(b), path);
    } else {
      SameLengthSamePrefix(Normalized(b), Normalized(a), path);
    }
  }

  // ---------------------------------------------------------------- redirects

  lemma {:induction false} NoTrailingSlash(s: string)
    ensures var t := TrimEnd(s, Slash); t == "" || t[|t| - 1] != '/'
  {
    if s != [] && s[|s| - 1] == '/' {
      NoTrailingSlash(s[..|s| - 1]);
    }
  }

  lemma NormalizedShape(prefix: string)
    ensures var n := Normalized(prefix); n == "" || n == "/" || n[|n| - 1] != '/'
  {
    NoTrailingSlash(Trim(prefix));
  }

  /** Adding a slash to a path that does not end in one changes what covers it only
      for the root prefix, and only when the path is empty. */
  lemma SlashKeepsCover(prefix: string, path: string)
    requires path == "" || path[|path| - 1] != '/'
    ensures path != "" || Normalized(prefix) != "/" ==> (Covers(prefix, path + "/") <==> Covers(prefix, path))
  {
    NormalizedShape(prefix);
    var n, longer := Normalized(prefix), path + "/";
    hide Normalized;
    if n <= longer && n != longer {
      assert n == longer[..|n|] == path[..|n|];
      assert longer[|n|..] == path[|n|..] + "/";
    }
    if n <= path {
      assert n <= longer;
    }
  }

  lemma {:induction false} ChoiceByCover(groups: seq<Group>, path: string, other: string)
    requires forall g <- groups :: Covers(g.prefix, path) <==> Covers(g.prefix, other)
    ensures Chosen(groups, path) == Chosen(groups, other)
  {
    hide Covers, Length;
    if groups != [] {
      var last := |groups| - 1;
      assert groups[last] in groups && forall g <- groups[..last] :: g in groups;
      ChoiceByCover(groups[..last], path, other);
    }
  }

  lemma SplitJoined(path: string, query: Option<string>)
    requires '?' !in path
    ensures SplitTarget(Joined(path, query)) == (path, query)
  {
    var target := Joined(path, query);
    var i := Find(target, c => c == '?');
    if query.Some? {
      assert target[|path|] == '?';
      assert forall k :: 0 <= k < |path| ==> target[k] == path[k];
      assert i == |path|;
      assert target[..i] == path && target[i + 1..] == query.value;
    }
  }

  lemma SplitIsJoined(target: string)
    ensures '?' !in SplitTarget(target).0 && Joined(SplitTarget(target).0, SplitTarget(target).1) == target
  {
    var i := Find(target, c => c == '?');
    assert forall k :: 0 <= k < i ==> target[k] != '?';
    if i < |target| {
      assert target == target[..i] + "?" + target[i + 1..];
    }
  }

  lemma SlashBeforeQuery(normal: string, query: Option<string>)
    ensures normal + "/" <= Joined(normal + "/", query)
  {
  }

  /** A redirect leads to the matched path with a slash added. */
  lemma RedirectAddsSlash(target: string, prefix: Option<string>)
    requires Redirect(target, prefix).Some?
    ensures prefix.Some? && Normalized(prefix.value) == SplitTarget(target).0 != "/"
    ensures SplitTarget(Redirect(target, prefix).value) == (SplitTarget(target).0 + "/", SplitTarget(target).1)
  {
    hide Normalized;
    SplitIsJoined(target);
    SplitJoined(Normalized(prefix.value) + "/", SplitTarget(target).1);
  }

  lemma NoSecondRedirect(normal: string, query: Option<string>, prefix: string)
    requires Normalized(prefix) == normal || Normalized(prefix) == "/"
    ensures Redirect(Joined(normal + "/", query), Some(prefix)) == None
  {
    SlashBeforeQuery(normal, query);
    hide Normalized, SplitTarget;
  }

  ghost predicate HasRoot(groups: seq<Group>) {
    exists g <- groups :: Normalized(g.prefix) == "/"
  }

  /** A redirected path selects the same group again, except when the path was empty
      and a root group exists. */
  lemma SameGroup(groups: seq<Group>, path: string)
    requires Chosen(groups, path).Some? && Normalized(groups[Chosen(groups, path).value].prefix) == path != "/"
    ensures Chosen(groups, path + "/").Some?
    ensures Chosen(groups, path + "/") == Chosen(groups, path) <==> path != "" || !HasRoot(groups)
    ensures var n := Normalized(groups[Chosen(groups, path + "/").value].prefix); n == path || n == "/"
  {
    var i := Chosen(groups, path).value;
    NormalizedShape(groups[i].prefix);
    hide Normalized;
    forall g: Group
      ensures path != "" || Normalized(g.prefix) != "/" ==> (Covers(g.prefix, path + "/") <==> Covers(g.prefix, path))
    {
      SlashKeepsCover(g.prefix, path);
    }
    if path != "" || !HasRoot(groups) {
      hide Covers;
      ChoiceByCover(groups, path, path + "/");
    } else {
      RootWins(groups, i);
    }
  }

  /** With an empty prefix and a root group, the path "/" goes to the root group. */
  lemma RootWins(groups: seq<Group>, i: nat)
    requires i < |groups| && Normalized(groups[i].prefix) == "" && HasRoot(groups)
    ensures Chosen(groups, "" + "/").Some?
    ensures Normalized(groups[Chosen(groups, "" + "/").value].prefix) == "/"
  {
    var g :| g in groups && Normalized(g.prefix) == "/";
    var k :| 0 <= k < |groups| && groups[k] == g;
    assert "" + "/" == "/";
    ChosenIsLongest(groups, "/", k);
    var j := Chosen(groups, "/").value;
    CoveredStartsWith(groups[j].prefix, "/");
    assert ByteLen("/") == 1;
    assert Length(groups[j]) >= 1;
    var n := Normalized(groups[j].prefix);
    hide Normalized;
    assert n <= "/" && n != "";
  }

  /** Routing converges: the redirected request goes to the same rule, to the same group
      unless the path was empty, and is not redirected again. */
  lemma RedirectConverges(rules: seq<Rule>, host: Option<string>, target: string)
    requires Redirected(rules, host, target).Some?
    ensures var next := Redirected(rules, host, target).value;
            var path := SplitTarget(target).0;
            && Redirected(rules, host, next) == None
            && Routed(rules, host, path).Some? && Routed(rules, host, SplitTarget(next).0).Some?
            && Routed(rules, host, path).value.rule == Routed(rules, host, SplitTarget(next).0).value.rule
            && (path != "" ==> Routed(rules, host, SplitTarget(next).0) == Routed(rules, host, path))
  {
    hide Normalized, SplitTarget, Redirect, Chosen, HostRule, LegacyRule, HasRoot;
    var (path, query) := SplitTarget(target);
    var prefix := MatchedPrefix(rules, host, path);
    var next := Redirected(rules, host, target).value;
    RedirectAddsSlash(target, prefix);
    var route := Routed(rules, host, path).value;
    var groups := rules[route.rule].matcher.groups;
    SameGroup(groups, path);
    var again := groups[Chosen(groups, path + "/").value].prefix;
    NextIs(target, prefix);
    NoSecondRedirect(path, query, again);
  }

  lemma NextIs(target: string, prefix: Option<string>)
    requires Redirect(target, prefix).Some?
    ensures Redirect(target, prefix).value == Joined(SplitTarget(target).0 + "/", SplitTarget(target).1)
  {
    hide Normalized, SplitTarget;
  }

  lemma SlashPrefixes()
    ensures Normalized("/") == "/" && Normalized("//") == "" && ByteLen("/") == 1 && ByteLen("") == 0
  {
    TrimKeeps("/");
    TrimKeeps("//");
    assert "//"[..1] == "/" && "/"[..0] == "";
    assert TrimEnd("/", Slash) == "";
    assert ByteLen("") == 0 && "/"[1..] == "";
  }

  lemma TwoGroups(groups: seq<Group>)
    requires |groups| == 2 && groups[0].prefix == "//" && groups[1].prefix == "/"
    ensures Chosen(groups, "") == Some(0) && Chosen(groups, "/") == Some(1)
  {
    SlashPrefixes();
    hide Normalized, ByteLen;
    var first := groups[..1];
    assert Chosen(first[..0], "") == None && Chosen(first[..0], "/") == None;
    assert Chosen(first, "") == Some(0) && Chosen(first, "/") == Some(0);
  }

  /** The case left out above exists: an empty path, an empty prefix and a root group. */
  lemma EmptyPathChangesGroup(rules: seq<Rule>, host: string)
    requires |rules| == 1 && rules[0].enabled && rules[0].matcher.Host? && DomainMatches(rules[0].domains, host, false)
    requires rules[0].matcher.groups == [Group("//", true), Group("/", true)]
    ensures Redirected(rules, Some(host), "") == Some("/")
    ensures Routed(rules, Some(host), "") == Some(Route(0, Some(0)))
    ensures Routed(rules, Some(host), "/") == Some(Route(0, Some(1)))
  {
    var groups := rules[0].matcher.groups;
    TwoGroups(groups);
    SlashPrefixes();
    assert SplitTarget("") == ("", None);
    assert HostRule(rules, host, false) == Some(0);
    hide Normalized, Chosen, HostRule, LegacyRule, SplitTarget, DomainMatches;
    assert "" + "/" == "/";
  }

  // --------------------------------------------------------------- rewriting

  /** A covered path is rewritten to an absolute path and keeps its query; any other
      request is left alone. */
  lemma RewriteIsAbsolute(target: string, prefix: string)
    ensures !Covers(prefix, SplitTarget(target).0) ==> Rewritten(target, prefix) == target
    ensures Covers(prefix, SplitTarget(target).0) ==>
              && "/" <= SplitTarget(Rewritten(target, prefix)).0
              && SplitTarget(Rewritten(target, prefix)).1 == SplitTarget(target).1
  {
    var (path, query) := SplitTarget(target);
    SplitIsJoined(target);
    var normal := Normalized(prefix);
    hide Normalized, SplitTarget;
    if Covers(prefix, path) {
      SplitJoined(path, query);
      SplitJoined("/", query);
      if normal <= path {
        SplitJoined(path[|normal|..], query);
      }
    }
  }

  /** Stripping loses nothing on a path strictly below the prefix. */
  lemma StripIsInvertible(target: string, prefix: string)
    requires Covers(prefix, SplitTarget(target).0)
    ensures Normalized(prefix) == "/" ==> Rewritten(target, prefix) == target
    ensures Normalized(prefix) != "/" && SplitTarget(target).0 != Normalized(prefix) ==>
              Normalized(prefix) + Rewritten(target, prefix) == target
  {
    var (path, query) := SplitTarget(target);
    SplitIsJoined(target);
    CoveredStartsWith(prefix, path);
    var normal := Normalized(prefix);
    hide Normalized, SplitTarget;
    assert Rewritten(target, prefix) == if normal == "/" then Joined(path, query)
                                        else if path == normal then Joined("/", query)
                                        else Joined(path[|normal|..], query);
    hide Rewritten, Covers;
    JoinedAfter(normal, path, query);
  }

  lemma JoinedAfter(prefix: string, path: string, query: Option<string>)
    requires prefix <= path
    ensures prefix + Joined(path[|prefix|..], query) == Joined(path, query)
  {
    assert prefix + path[|prefix|..] == path;
  }

  /** Every request that is served, not redirected, can be read back from what the upstream
      gets and the stripped prefix, and what the upstream gets is absolute with the same query. */
  lemma ServedRequestIsRecoverable(rules: seq<Rule>, host: Option<string>, target: string)
    requires Redirected(rules, host, target).None?
    ensures match StrippedPrefix(rules, host, SplitTarget(target).0)
            case None => Forwarded(rules, host, target) == target
            case Some(prefix) =>
              && target == (if Normalized(prefix) == "/" then "" else Normalized(prefix)) + Forwarded(rules, host, target)
              && "/" <= SplitTarget(Forwarded(rules, host, target)).0
              && SplitTarget(Forwarded(rules, host, target)).1 == SplitTarget(target).1
  {
    var (path, query) := SplitTarget(target);
    hide Normalized, Rewritten, HostRule, LegacyRule, SplitTarget;
    SplitIsJoined(target);
    var stripped := StrippedPrefix(rules, host, path);
    if stripped.Some? {
      assert Covers(stripped.value, path) && MatchedPrefix(rules, host, path) == stripped;
      hide Covers;
      StripIsInvertible(target, stripped.value);
      RewriteIsAbsolute(target, stripped.value);
      PathIsNotDeeper(path, query);
    }
  }

  lemma PathIsNotDeeper(path: string, query: Option<string>)
    ensures !(path + "/" <= Joined(path, query))
  {
    assert (path + "/")[|path|] == '/';
    assert query.Some? ==> Joined(path, query)[|path|] == '?';
  }

  /** A wildcard domain covers exactly the names strictly below it, ignoring case. */
  lemma WildcardIsStrict(suffix: string, host: string)
    ensures WildcardMatches("*." + suffix, host) <==> EndsWith(Lower(host), "." + Lower(suffix))
  {
    var low, tail := Lower(host), Lower(suffix);
    assert ("*." + suffix)[2..] == suffix;
    if EndsWith(low, "." + tail) {
      var cut := |low| - |tail|;
      assert low[cut - 1..] == "." + tail;
      assert low[cut..] == low[cut - 1..][1..] == tail;
    }
    if EndsWith(low, tail) && |low| > |tail| && low[|low| - |tail| - 1] == '.' {
      assert low[|low| - |tail| - 1..] == "." + tail;
    }
  }
}
