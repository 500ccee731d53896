/** The AdGuard rule compiler, against the sets of names its rules stand for. */
module Adguard {
  import opened AdguardLines
  import opened Text

  datatype Result<+T> = Ok(value: T) | Cancelled

  // ------------------------------------------------------- what rules denote

  /** A Full rule stands for one name, a Domain rule also for everything below it. */
  ghost predicate Matches(rule: Rule, name: string) {
    name == rule.value || (rule.kind == Domain && EndsWith(name, "." + rule.value))
  }

  ghost predicate Intersect(a: Rule, b: Rule) {
    exists name :: Matches(a, name) && Matches(b, name)
  }

  predicate EqualOrSubdomain(domain: string, base: string) {
    domain == base || (EndsWith(domain, base) && EndsWith(domain[..|domain| - |base|], "."))
  }

  predicate Overlap(candidate: Rule, negative: Rule) {
    match (candidate.kind, negative.kind)
    case (Full, Full) => candidate.value == negative.value
    case (Full, Domain) => EqualOrSubdomain(candidate.value, negative.value)
    case (Domain, Full) => EqualOrSubdomain(negative.value, candidate.value)
    case (Domain, Domain) =>
      EqualOrSubdomain(candidate.value, negative.value) || EqualOrSubdomain(negative.value, candidate.value)
  }

  lemma SubdomainIsMatch(domain: string, base: string)
    ensures EqualOrSubdomain(domain, base) <==> Matches(Rule(Domain, base), domain)
  {
    var dotted := "." + base;
    if EndsWith(domain, dotted) {
      var cut := |domain| - |base|;
      assert domain[cut - 1..] == dotted;
      assert domain[cut..] == dotted[1..] == base;
      assert domain[..cut][cut - 1..] == ".";
    }
    if EndsWith(domain, base) && EndsWith(domain[..|domain| - |base|], ".") {
      var cut := |domain| - |base|;
      assert domain[..cut][cut - 1] == '.';
      assert domain[cut - 1..] == dotted;
    }
  }

  lemma SuffixesNest(s: string, long: string, short: string)
    requires EndsWith(s, long) && EndsWith(s, short) && |short| <= |long|
    ensures EndsWith(long, short)
  {
    var cut := |long| - |short|;
    assert long == s[|s| - |long|..];
    assert long[cut..] == s[|s| - |short|..];
  }

  lemma SuffixTail(s: string, c: char, tail: string)
    requires EndsWith(s, [c] + tail)
    ensures EndsWith(s, tail)
  {
    assert s[|s| - |tail|..] == s[|s| - |tail| - 1..][1..];
  }

  /** Of two Domain rules that share a name, the longer one's own name is shared. */
  lemma SharedName(long: Rule, short: Rule, name: string)
    requires long.kind == short.kind == Domain && |short.value| <= |long.value|
    requires Matches(long, name) && Matches(short, name)
    ensures Matches(short, long.value)
  {
    if name != long.value {
      if name == short.value {
        SuffixTail(name, '.', long.value);
        assert false;
      } else if |short.value| < |long.value| {
        SuffixTail(name, '.', long.value);
        SuffixesNest(name, long.value, "." + short.value);
      } else {
        assert "." + long.value == name[|name| - |long.value| - 1..] == "." + short.value;
        assert long.value == ("." + long.value)[1..] == ("." + short.value)[1..];
      }
    }
  }

  /** The overlap test is exact: it holds if and only if the two rules share a name. */
  lemma OverlapIsIntersection(a: Rule, b: Rule)
    ensures Overlap(a, b) <==> Intersect(a, b)
  {
    SubdomainIsMatch(a.value, b.value);
    SubdomainIsMatch(b.value, a.value);
    if Intersect(a, b) && a.kind == b.kind == Domain {
      var name :| Matches(a, name) && Matches(b, name);
      if |a.value| <= |b.value| {
        SharedName(b, a, name);
      } else {
        SharedName(a, b, name);
      }
    }
    assert Matches(a, a.value) && Matches(b, b.value);
  }

  // --------------------------------------------------- what the compiler means

  function OfferedBy(line: Line): seq<Rule> {
    if line.Offered? then line.rules else []
  }

  function RemovedBy(line: Line): seq<Rule> {
    if line.Negative? then [line.rule] else []
  }

  function Candidates(lines: seq<Line>): seq<Rule> {
    if lines == [] then [] else Candidates(lines[..|lines| - 1]) + OfferedBy(lines[|lines| - 1])
  }

  function Negatives(lines: seq<Line>): seq<Rule> {
    if lines == [] then [] else Negatives(lines[..|lines| - 1]) + RemovedBy(lines[|lines| - 1])
  }

  predicate Hit(candidate: Rule, negatives: seq<Rule>) {
    exists n <- negatives :: Overlap(candidate, n)
  }

  function Kept(candidates: seq<Rule>, negatives: seq<Rule>): seq<Rule> {
    if candidates == [] then []
    else
      var c := candidates[|candidates| - 1];
      var kept := Kept(candidates[..|candidates| - 1], negatives);
      if Hit(c, negatives) || c in kept then kept else kept + [c]
  }

  function Compiled(lines: seq<Line>): seq<Rule> {
    Kept(Candidates(lines), Negatives(lines))
  }

  function ClassifyAll(texts: seq<string>, isIp: IpTest): (lines: seq<Line>)
    ensures |lines| == |texts| && forall i :: 0 <= i < |texts| ==> lines[i] == Classify(texts[i], isIp)
  {
    seq(|texts|, i requires 0 <= i < |texts| => Classify(texts[i], isIp))
  }

  // ------------------------------------------------------------- the compiler

  lemma NoLines()
    ensures Candidates([]) == [] && Negatives([]) == []
  {
  }

  lemma OneMoreLine(lines: seq<Line>, i: nat)
    requires i < |lines|
    ensures Candidates(lines[..i + 1]) == Candidates(lines[..i]) + OfferedBy(lines[i])
    ensures Negatives(lines[..i + 1]) == Negatives(lines[..i]) + RemovedBy(lines[i])
  {
    assert lines[..i + 1][..i] == lines[..i];
  }

  /** `stop` answers the cancellation poll before each line. */
  method ParseRules(texts: seq<string>, isIp: IpTest, stop: nat -> bool) returns (r: Result<seq<Rule>>)
    ensures r.Cancelled? <==> exists i :: 0 <= i < |texts| && stop(i)
    ensures r.Ok? ==> r.value == Compiled(ClassifyAll(texts, isIp))
  {
    NoLines();
    hide Classify, Kept, Candidates, Negatives;
    ghost var lines := ClassifyAll(texts, isIp);
    assert lines[..0] == [];
    var candidates, negatives: seq<Rule> := [], [];
    for i := 0 to |texts|
      invariant candidates == Candidates(lines[..i]) && negatives == Negatives(lines[..i])
      invariant forall k :: 0 <= k < i ==> !stop(k)
    {
      if stop(i) {
        return Cancelled;
      }
      var line := Classify(texts[i], isIp);
      OneMoreLine(lines, i);
      if line.Negative? {
        negatives := negatives + [line.rule];
      } else if line.Offered? {
        candidates := candidates + line.rules;
      }
    }
    assert lines[..|texts|] == lines;
    var result := Filter(candidates, negatives);
    r := Ok(result);
  }

  method Filter(candidates: seq<Rule>, negatives: seq<Rule>) returns (result: seq<Rule>)
    ensures result == Kept(candidates, negatives)
  {
    result := [];
    var seen: set<Rule> := {};
    for i := 0 to |candidates|
      invariant result == Kept(candidates[..i], negatives)
      invariant forall c :: c in seen <==> c in result
    {
      var c := candidates[i];
      assert candidates[..i + 1][..i] == candidates[..i];
      if Hit(c, negatives) {
        continue;
      }
      if c !in seen {
        seen := seen + {c};
        result := result + [c];
      }
    }
    assert candidates[..|candidates|] == candidates;
  }

  // --------------------------------------------------------------- soundness

  lemma {:induction false} KeptExactly(candidates: seq<Rule>, negatives: seq<Rule>, rule: Rule)
    ensures rule in Kept(candidates, negatives) <==> rule in candidates && !Hit(rule, negatives)
  {
    if candidates != [] {
      var front := candidates[..|candidates| - 1];
      var c := candidates[|candidates| - 1];
      KeptExactly(front, negatives, rule);
      KeptExactly(front, negatives, c);
      assert candidates == front + [c];
    }
  }

  /** A rule is in the output exactly when it was offered and shares no name with a negative rule. */
  lemma OutputIsExact(lines: seq<Line>, rule: Rule)
    ensures rule in Compiled(lines) <==>
            rule in Candidates(lines) && forall n <- Negatives(lines) :: !Intersect(rule, n)
  {
    KeptExactly(Candidates(lines), Negatives(lines), rule);
    forall n: Rule
      ensures Overlap(rule, n) <==> Intersect(rule, n)
    {
      OverlapIsIntersection(rule, n);
    }
    hide Overlap, Intersect;
  }

  /** No name that a negative rule matches is matched by any rule of the output. */
  lemma NegativesWin(lines: seq<Line>, rule: Rule, negative: Rule, name: string)
    requires rule in Compiled(lines) && negative in Negatives(lines) && Matches(negative, name)
    ensures !Matches(rule, name)
  {
    OutputIsExact(lines, rule);
    assert !Intersect(rule, negative);
  }

  /** Place of the first occurrence of an element. */
  ghost function FirstAt(rules: seq<Rule>, rule: Rule): (i: nat)
    requires rule in rules
    ensures i < |rules| && rules[i] == rule && rule !in rules[..i]
  {
    if rule in rules[..|rules| - 1] then
      var i := FirstAt(rules[..|rules| - 1], rule);
      assert rules[..|rules| - 1][..i] == rules[..i];
      i
    else |rules| - 1
  }

  lemma {:induction false} KeptInOrder(candidates: seq<Rule>, negatives: seq<Rule>, i: nat, j: nat)
    requires i < j < |Kept(candidates, negatives)|
    ensures Kept(candidates, negatives)[i] in candidates && Kept(candidates, negatives)[j] in candidates
    ensures FirstAt(candidates, Kept(candidates, negatives)[i]) < FirstAt(candidates, Kept(candidates, negatives)[j])
  {
    var front := candidates[..|candidates| - 1];
    var c := candidates[|candidates| - 1];
    var kept := Kept(front, negatives);
    assert candidates == front + [c];
    KeptExactly(front, negatives, kept[i]);
    if j < |kept| {
      KeptInOrder(front, negatives, i, j);
    } else {
      KeptExactly(front, negatives, c);
    }
  }

  /** The output keeps the order of first occurrence, hence has no repeats. */
  lemma OutputInOrder(lines: seq<Line>, i: nat, j: nat)
    requires i < j < |Compiled(lines)|
    ensures Compiled(lines)[i] in Candidates(lines) && Compiled(lines)[j] in Candidates(lines)
    ensures FirstAt(Candidates(lines), Compiled(lines)[i]) < FirstAt(Candidates(lines), Compiled(lines)[j])
    ensures Compiled(lines)[i] != Compiled(lines)[j]
  {
    KeptInOrder(Candidates(lines), Negatives(lines), i, j);
  }

  // ------------------------------------------------------ where negatives stand

  /** The lines that are not negative, in order. */
  ghost function WithoutNegatives(lines: seq<Line>): seq<Line> {
    if lines == [] then []
    else
      WithoutNegatives(lines[..|lines| - 1])
      + if lines[|lines| - 1].Negative? then [] else [lines[|lines| - 1]]
  }

  lemma {:induction false} CandidatesIgnoreNegatives(lines: seq<Line>)
    ensures Candidates(WithoutNegatives(lines)) == Candidates(lines)
  {
    if lines != [] {
      var front, last := WithoutNegatives(lines[..|lines| - 1]), lines[|lines| - 1];
      CandidatesIgnoreNegatives(lines[..|lines| - 1]);
      assert (front + [last])[..|front|] == front;
      assert last.Negative? ==> WithoutNegatives(lines) == front;
    }
  }

  lemma {:induction false} KeptByNegativeSet(candidates: seq<Rule>, negatives: seq<Rule>, others: seq<Rule>)
    requires forall n :: n in negatives <==> n in others
    ensures Kept(candidates, negatives) == Kept(candidates, others)
  {
    if candidates != [] {
      KeptByNegativeSet(candidates[..|candidates| - 1], negatives, others);
    }
  }

  /** Negative lines may stand anywhere, in any order and number. */
  lemma NegativesMayMove(lines: seq<Line>, moved: seq<Line>)
    requires WithoutNegatives(lines) == WithoutNegatives(moved)
    requires forall n :: n in Negatives(lines) <==> n in Negatives(moved)
    ensures Compiled(lines) == Compiled(moved)
  {
    CandidatesIgnoreNegatives(lines);
    CandidatesIgnoreNegatives(moved);
    KeptByNegativeSet(Candidates(lines), Negatives(lines), Negatives(moved));
  }

  // ------------------------------------------------------------- from the text

  lemma {:induction false} CandidatesAreClean(lines: seq<Line>)
    requires forall line <- lines :: CleanLine(line)
    ensures forall rule <- Candidates(lines) :: CleanName(rule.value)
  {
    hide CleanName;
    if lines != [] {
      var last := lines[|lines| - 1];
      assert last in lines && forall line <- lines[..|lines| - 1] :: line in lines;
      CandidatesAreClean(lines[..|lines| - 1]);
    }
  }

  /** Whatever the text, the output holds lower-case dotted names of valid labels. */
  lemma OutputIsClean(texts: seq<string>, isIp: IpTest, rule: Rule)
    requires rule in Compiled(ClassifyAll(texts, isIp))
    ensures CleanName(rule.value)
  {
    hide CleanName, Classify, CleanLine;
    var lines := ClassifyAll(texts, isIp);
    forall line | line in lines
      ensures CleanLine(line)
    {
      var i :| 0 <= i < |texts| && line == Classify(texts[i], isIp);
      EveryRuleIsClean(texts[i], isIp);
    }
    CandidatesAreClean(lines);
    KeptExactly(Candidates(lines), Negatives(lines), rule);
  }
}
