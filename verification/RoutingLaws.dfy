/** Which rule serves a request, in which order rules are tried, and what each group does to
    the request, stated without the code's own search and strip functions. */
module RoutingLaws {
  import opened Options
  import opened PathRouting
  import opened Text

  // ---------------------------------------------------------------- prefixes

  /** A prefix covers whole path segments: with a slash added, the path starts with the prefix
      and its slash. The root covers every absolute path. */
  lemma CoversWholeSegments(prefix: string, path: string)
    ensures Normalized(prefix) == "/" ==> (Covers(prefix, path) <==> path != "" && path[0] == '/')
    ensures Normalized(prefix) != "/" ==> (Covers(prefix, path) <==> Normalized(prefix) + "/" <= path + "/")
  {
    var n := Normalized(prefix);
    hide Normalized;
    var longer, slashed := path + "/", n + "/";
    assert slashed[|n|] == '/' && slashed[..|n|] == n;
    if n <= path {
      assert longer[..|n|] == n;
      assert |n| < |path| ==> longer[|n|] == path[|n|] && path[|n|..][0] == path[|n|];
      assert |n| == |path| ==> path == n;
    }
    assert |n| <= |path| ==> longer[..|n|] == path[..|n|];
  }

  lemma {:induction false} SlashesTrimmed(p: string, tail: string)
    requires (p == "" || p[|p| - 1] != '/') && forall i | 0 <= i < |tail| :: tail[i] == '/'
    ensures TrimEnd(p + tail, Slash) == p
    decreases |tail|
  {
    if tail == [] {
      assert p + tail == p;
    } else {
      var k := |tail| - 1;
      SlashesTrimmed(p, tail[..k]);
      assert (p + tail)[..|p + tail| - 1] == p + tail[..k];
    }
  }

  /** Trailing slashes of a prefix do not matter, save for the root itself. */
  lemma NormalForms(p: string, tail: string)
    requires p != "" && !White(p[0]) && !White(p[|p| - 1]) && p[|p| - 1] != '/'
    requires forall i | 0 <= i < |tail| :: tail[i] == '/'
    ensures Normalized(p + tail) == p && Normalized("/") == "/"
  {
    SlashPrefixes();
    SlashesTrimmed(p, tail);
    var s := p + tail;
    assert s[0] == p[0] && (s[|s| - 1] == '/' || s[|s| - 1] == p[|p| - 1]);
    TrimKeeps(s);
  }

  // --------------------------------------------------------------- precedence

  ghost predicate NamedExactly(rule: Rule, host: string) {
    exists d <- rule.domains :: !("*." <= d) && Lower(d) == Lower(host)
  }

  ghost predicate NamedByWildcard(rule: Rule, host: string) {
    exists d <- rule.domains :: "*." <= d && EndsWith(Lower(host), "." + Lower(d[2..]))
  }

  /** How well a rule fits a request, the best fit first; 5 when it does not fit at all. */
  ghost function Rank(rule: Rule, host: Option<string>, path: string): nat {
    if !rule.enabled then 5
    else match rule.matcher
      case Host(_) =>
        if host.Some? && NamedExactly(rule, host.value) then 0
        else if host.Some? && NamedByWildcard(rule, host.value) then 1
        else 5
      case LegacyPathPrefix(prefix) =>
        if !Covers(prefix, path) then 5
        else if rule.domains == [] then 4
        else if host.Some? && NamedExactly(rule, host.value) then 2
        else if host.Some? && NamedByWildcard(rule, host.value) then 3
        else 5
      case SniProxy => 5
  }

  lemma NamedIs(rule: Rule, host: string)
    ensures DomainMatches(rule.domains, host, false) <==> NamedExactly(rule, host)
    ensures DomainMatches(rule.domains, host, true) <==> NamedByWildcard(rule, host)
  {
    forall d | d in rule.domains && "*." <= d
      ensures WildcardMatches(d, host) <==> EndsWith(Lower(host), "." + Lower(d[2..]))
    {
      assert d == "*." + d[2..];
      WildcardIsStrict(d[2..], host);
    }
    hide WildcardMatches, Lower, EndsWith;
  }

  /** No rule has this rank. */
  ghost predicate Lacks(rules: seq<Rule>, host: Option<string>, path: string, rank: nat) {
    forall i | 0 <= i < |rules| :: Rank(rules[i], host, path) != rank
  }

  /** `r` is the first rule of this rank, or None when there is none. */
  ghost predicate First(rules: seq<Rule>, host: Option<string>, path: string, rank: nat, r: Option<nat>) {
    if r.None? then Lacks(rules, host, path, rank)
    else r.value < |rules| && Rank(rules[r.value], host, path) == rank && Lacks(rules[..r.value], host, path, rank)
  }

  lemma HostSearch(rules: seq<Rule>, host: string, path: string, wildcard: bool)
    requires wildcard ==> Lacks(rules, Some(host), path, 0)
    ensures First(rules, Some(host), path, if wildcard then 1 else 0, HostRule(rules, host, wildcard))
  {
    forall rule: Rule ensures (DomainMatches(rule.domains, host, false) <==> NamedExactly(rule, host))
                              && (DomainMatches(rule.domains, host, true) <==> NamedByWildcard(rule, host)) {
      NamedIs(rule, host);
    }
    hide DomainMatches, NamedExactly, NamedByWildcard, Covers;
    var r := HostRule(rules, host, wildcard);
    forall i | 0 <= i < (if r.Some? then r.value else |rules|)
      ensures Rank(rules[i], Some(host), path) != if wildcard then 1 else 0
    {
      assert !(rules[i].enabled && rules[i].matcher.Host? && DomainMatches(rules[i].domains, host, wildcard));
    }
  }

  lemma LegacySearch(rules: seq<Rule>, host: string, path: string, wildcard: bool)
    requires wildcard ==> Lacks(rules, Some(host), path, 2)
    ensures First(rules, Some(host), path, if wildcard then 3 else 2, LegacyRule(rules, Some(host), path, wildcard))
  {
    forall rule: Rule ensures (DomainMatches(rule.domains, host, false) <==> NamedExactly(rule, host))
                              && (DomainMatches(rule.domains, host, true) <==> NamedByWildcard(rule, host)) {
      NamedIs(rule, host);
    }
    hide DomainMatches, NamedExactly, NamedByWildcard, Covers;
    var r := LegacyRule(rules, Some(host), path, wildcard);
    forall i | 0 <= i < (if r.Some? then r.value else |rules|)
      ensures Rank(rules[i], Some(host), path) != if wildcard then 3 else 2
    {
      assert !(&& rules[i].enabled && rules[i].matcher.LegacyPathPrefix?
               && rules[i].domains != [] && DomainMatches(rules[i].domains, host, wildcard)
               && Covers(rules[i].matcher.prefix, path));
    }
  }

  lemma GlobalSearch(rules: seq<Rule>, host: Option<string>, path: string)
    ensures First(rules, host, path, 4, LegacyRule(rules, None, path, false))
  {
    hide DomainMatches, NamedExactly, NamedByWildcard, Covers;
    var r := LegacyRule(rules, None, path, false);
    forall i | 0 <= i < (if r.Some? then r.value else |rules|) ensures Rank(rules[i], host, path) != 4 {
      assert !(&& rules[i].enabled && rules[i].matcher.LegacyPathPrefix? && rules[i].domains == []
               && Covers(rules[i].matcher.prefix, path));
    }
  }

  lemma RanksWithoutHost(rules: seq<Rule>, path: string)
    ensures forall rank: nat | rank < 4 :: Lacks(rules, None, path, rank)
  {
    hide Covers;
  }

  /** Rule `k` fits best and is the first that fits as well. */
  ghost predicate Best(rules: seq<Rule>, host: Option<string>, path: string, k: nat) {
    && k < |rules| && rules[k].enabled && Rank(rules[k], host, path) < 5
    && (forall i | 0 <= i < |rules| :: Rank(rules[k], host, path) <= Rank(rules[i], host, path))
    && (forall i | 0 <= i < k :: Rank(rules[k], host, path) < Rank(rules[i], host, path))
  }

  lemma FirstIsBest(rules: seq<Rule>, host: Option<string>, path: string, rank: nat, k: nat)
    requires rank < 5 && First(rules, host, path, rank, Some(k))
    requires forall better: nat | better < rank :: Lacks(rules, host, path, better)
    ensures Best(rules, host, path, k) && (rules[k].matcher.Host? <==> rank <= 1)
  {
    Shape(rules[k], host, path);
    hide Rank;
    forall i | 0 <= i < |rules|
      ensures rank <= Rank(rules[i], host, path) && (i < k ==> rank < Rank(rules[i], host, path))
    {
      assert Rank(rules[i], host, path) < rank ==> Lacks(rules, host, path, Rank(rules[i], host, path));
      if i < k {
        assert rules[..k][i] == rules[i];
      }
    }
  }

  lemma Shape(rule: Rule, host: Option<string>, path: string)
    ensures var rank := Rank(rule, host, path);
            && rank <= 5 && (rank < 5 ==> rule.enabled)
            && (rank <= 1 ==> rule.matcher.Host?) && (2 <= rank <= 4 ==> !rule.matcher.Host?)
  {
    hide Covers, NamedExactly, NamedByWildcard;
  }

  lemma NothingFits(rules: seq<Rule>, host: Option<string>, path: string)
    requires forall rank: nat | rank < 5 :: Lacks(rules, host, path, rank)
    ensures forall i | 0 <= i < |rules| :: Rank(rules[i], host, path) == 5
  {
    forall i | 0 <= i < |rules| ensures Rank(rules[i], host, path) == 5 {
      Shape(rules[i], host, path);
      hide Rank;
      assert Rank(rules[i], host, path) < 5 ==> Lacks(rules, host, path, Rank(rules[i], host, path));
    }
  }

  /** The route is the best there is; None only when nothing fits. */
  ghost predicate Serves(rules: seq<Rule>, host: Option<string>, path: string, route: Option<Route>) {
    if route.None? then forall i | 0 <= i < |rules| :: Rank(rules[i], host, path) == 5
    else
      && Best(rules, host, path, route.value.rule)
      && var rule := rules[route.value.rule];
         route.value.group == if rule.matcher.Host? then Chosen(rule.matcher.groups, path) else None
  }

  /** A request is served by the best fitting rule and, among equals, by the first: exact host
      names before wildcards, host rules before legacy path rules, named ones before those for
      every host. Disabled rules and rules that do not fit never serve, and nothing serves only
      when nothing fits. */
  lemma RoutedIsBest(rules: seq<Rule>, host: Option<string>, path: string)
    ensures Serves(rules, host, path, Routed(rules, host, path))
  {
    hide Rank, Best, HostRule, LegacyRule, Chosen, Lacks, First;
    if host.Some? {
      RoutedWithHost(rules, host.value, path);
    } else {
      RanksWithoutHost(rules, path);
      RoutedForAll(rules, None, path);
    }
  }

  /** The last search, once no host rule and no named legacy rule fits. */
  lemma RoutedForAll(rules: seq<Rule>, host: Option<string>, path: string)
    requires forall rank: nat | rank < 4 :: Lacks(rules, host, path, rank)
    ensures var r := LegacyRule(rules, None, path, false);
            Serves(rules, host, path, if r.Some? then Some(Route(r.value, None)) else None)
  {
    hide Rank, LegacyRule, Lacks;
    GlobalSearch(rules, host, path);
    var r := LegacyRule(rules, None, path, false);
    if r.Some? {
      FirstIsBest(rules, host, path, 4, r.value);
    } else {
      NothingFits(rules, host, path);
    }
  }

  lemma RoutedWithHost(rules: seq<Rule>, host: string, path: string)
    ensures Serves(rules, Some(host), path, Routed(rules, Some(host), path))
  {
    hide Rank, Best, HostRule, LegacyRule, Chosen, Lacks;
    HostSearch(rules, host, path, false);
    if HostRule(rules, host, false).Some? {
      FirstIsBest(rules, Some(host), path, 0, HostRule(rules, host, false).value);
    } else {
      HostSearch(rules, host, path, true);
      if HostRule(rules, host, true).Some? {
        FirstIsBest(rules, Some(host), path, 1, HostRule(rules, host, true).value);
      } else {
        LegacySearch(rules, host, path, false);
        if LegacyRule(rules, Some(host), path, false).Some? {
          FirstIsBest(rules, Some(host), path, 2, LegacyRule(rules, Some(host), path, false).value);
        } else {
          LegacySearch(rules, host, path, true);
          if LegacyRule(rules, Some(host), path, true).Some? {
            FirstIsBest(rules, Some(host), path, 3, LegacyRule(rules, Some(host), path, true).value);
          } else {
            RoutedForAll(rules, Some(host), path);
          }
        }
      }
    }
  }

  // -------------------------------------------------- what the upstream gets

  /** The path group a request is routed to, if any. */
  ghost function GroupOf(rules: seq<Rule>, host: Option<string>, path: string): Option<Group> {
    var route := Routed(rules, host, path);
    if route.Some? && route.value.group.Some? then Some(rules[route.value.rule].matcher.groups[route.value.group.value])
    else None
  }

  /** What each route does to the request. Only a group that asks for it strips its prefix;
      below the prefix the request is the prefix followed by what the upstream gets, at the
      prefix itself the upstream gets the root, and everything else passes unchanged. */
  lemma ForwardedByGroup(rules: seq<Rule>, host: Option<string>, target: string)
    ensures var path, query := SplitTarget(target).0, SplitTarget(target).1;
            var group := GroupOf(rules, host, path);
            && (group.None? || !group.value.strip || Normalized(group.value.prefix) == "/" ==>
                  Forwarded(rules, host, target) == target)
            && (group.Some? && group.value.strip && Normalized(group.value.prefix) != "/" ==>
                  if path == Normalized(group.value.prefix) then Forwarded(rules, host, target) == Joined("/", query)
                  else Normalized(group.value.prefix) + Forwarded(rules, host, target) == target)
  {
    var group := GroupOf(rules, host, SplitTarget(target).0);
    hide Normalized, Rewritten, HostRule, LegacyRule, SplitTarget, Covers, Joined;
    if group.Some? {
      StripIsInvertible(target, group.value.prefix);
      StripToRoot(target, group.value.prefix);
    }
  }

  lemma StripToRoot(target: string, prefix: string)
    ensures SplitTarget(target).0 == Normalized(prefix) != "/" ==> Rewritten(target, prefix) == Joined("/", SplitTarget(target).1)
  {
    hide Normalized, SplitTarget, Joined;
  }

  /** A request is redirected exactly when its route's group has a prefix that is the path
      itself, other than the root. */
  lemma RedirectedExactly(rules: seq<Rule>, host: Option<string>, target: string)
    ensures var path := SplitTarget(target).0;
            var group := GroupOf(rules, host, path);
            Redirected(rules, host, target).Some? <==>
            group.Some? && path == Normalized(group.value.prefix) && path != "/"
  {
    var (path, query) := SplitTarget(target);
    hide Normalized, HostRule, LegacyRule, SplitTarget;
    SplitIsJoined(target);
    PathIsNotDeeper(path, query);
    if Redirected(rules, host, target).Some? {
      RedirectAddsSlash(target, MatchedPrefix(rules, host, path));
    }
  }
}
