/** Normal forms of advertised resolver names and DoH path templates. */
module DnrNames {
  import opened Options
  import opened Text

  predicate Ascii(s: string) {
    forall c <- s :: c < '\U{80}'
  }

  // ----------------------------------------------------------------- domains

  predicate LabelOk(part: string) {
    && 0 < |part| <= 63 && part[0] != '-' && part[|part| - 1] != '-'
    && forall c <- part :: Alphanumeric(c) || c == '-'
  }

  function NormalizedDomain(domain: string): Option<string> {
    var name := Lower(TrimEnd(Trim(domain), Dot));
    if name == "" || |name| > 253 || '*' in name || !Ascii(name) then None
    else if forall part <- Labels(name) :: LabelOk(part) then Some(name)
    else None
  }

  /** What every normalized name is. */
  ghost predicate NormalName(name: string) {
    && 0 < |name| <= 253 && Lower(name) == name && name[|name| - 1] != '.'
    && (forall c <- name :: Alphanumeric(c) || c == '-' || c == '.')
    && (forall part <- Labels(name) :: LabelOk(part))
  }

  lemma {:induction false} TrimEndStops(s: string, p: char -> bool)
    ensures var t := TrimEnd(s, p); t == "" || !p(t[|t| - 1])
  {
    if s != [] && p(s[|s| - 1]) {
      TrimEndStops(s[..|s| - 1], p);
    }
  }

  lemma NormalizedIsNormal(domain: string)
    requires NormalizedDomain(domain).Some?
    ensures NormalName(NormalizedDomain(domain).value)
  {
    var name := NormalizedDomain(domain).value;
    TrimEndStops(Trim(domain), Dot);
    LowerTwice(TrimEnd(Trim(domain), Dot));
    forall c | c in name && c != '.'
      ensures Alphanumeric(c) || c == '-'
    {
      LabelsCover(name, c);
    }
  }

  lemma NormalIsFixed(name: string)
    requires NormalName(name)
    ensures NormalizedDomain(name) == Some(name)
  {
    assert name[0] in name && name[|name| - 1] in name;
    TrimKeeps(name);
    hide LabelOk, Labels;
  }

  /** Normalizing a domain a second time changes nothing. */
  lemma DomainNormalizedOnce(domain: string)
    requires NormalizedDomain(domain).Some?
    ensures NormalizedDomain(NormalizedDomain(domain).value) == NormalizedDomain(domain)
  {
    hide NormalizedDomain, NormalName;
    NormalizedIsNormal(domain);
    NormalIsFixed(NormalizedDomain(domain).value);
  }

  // --------------------------------------------------------- path templates

  /** Non-overlapping occurrences, from the left. */
  function Count(s: string, token: string): nat
    requires token != ""
  {
    if token <= s then 1 + Count(s[|token|..], token)
    else if s == "" then 0
    else Count(s[1..], token)
  }

  /** Place of the first occurrence, or the length. */
  function First(s: string, token: string): (i: nat)
    ensures i <= |s|
    ensures i < |s| && token != "" ==> token <= s[i..]
  {
    if s == "" || token <= s then 0 else 1 + First(s[1..], token)
  }

  const TOKENS := ["{?dns}", "{&dns}", "{dns}"]

  function Before(s: string, token: string): string {
    s[..First(s, token)]
  }

  /** The text with the first occurrence taken out. */
  function Without(s: string, token: string): string {
    var i := First(s, token);
    if i + |token| <= |s| then s[..i] + s[i + |token|..] else s
  }

  predicate GoodTemplate(path: string, token: string) {
    && '{' !in Without(path, token) && '}' !in Without(path, token)
    && (token == "{?dns}" ==> '?' !in Before(path, token))
    && (token == "{&dns}" ==> '?' in Before(path, token))
  }

  function Matched(path: string, n: nat): (r: Option<Option<string>>)
    requires n <= |TOKENS|
    ensures r.Some? && r.value.Some? ==> r.value.value in TOKENS[..n]
  {
    if n == 0 then Some(None)
    else match Matched(path, n - 1)
      case None => None
      case Some(token) =>
        if Count(path, TOKENS[n - 1]) == 0 then Some(token)
        else if Count(path, TOKENS[n - 1]) == 1 && token.None? then Some(Some(TOKENS[n - 1]))
        else None
  }

  function NormalizedPath(text: string): Option<string> {
    var path := Trim(text);
    if path == "" || path[0] != '/' || !Ascii(path) || '#' in path then None
    else match Matched(path, |TOKENS|)
      case None => None
      case Some(Some(token)) => if GoodTemplate(path, token) then Some(path) else None
      case Some(None) =>
        if '?' in path || '{' in path || '}' in path then None else Some(path + "{?dns}")
  }

  method NormalizeDohPathTemplate(text: string) returns (r: Option<string>)
    ensures r == NormalizedPath(text)
  {
    hide Count, GoodTemplate;
    var path := Trim(text);
    if path == "" || path[0] != '/' || !Ascii(path) || '#' in path {
      return None;
    }
    var matched: Option<string> := None;
    for n := 0 to |TOKENS|
      invariant Matched(path, n) == Some(matched)
      invariant Matched(path, |TOKENS|).Some? ==> Matched(path, n).Some?
    {
      var count := Count(path, TOKENS[n]);
      if count == 1 && matched.None? {
        matched := Some(TOKENS[n]);
      } else if count != 0 {
        MatchedFails(path, n + 1, |TOKENS|);
        return None;
      }
    }
    if matched.Some? {
      return if GoodTemplate(path, matched.value) then Some(path) else None;
    }
    if '?' in path || '{' in path || '}' in path {
      return None;
    }
    r := Some(path + "{?dns}");
  }

  lemma {:induction false} MatchedFails(path: string, m: nat, n: nat)
    requires m <= n <= |TOKENS| && Matched(path, m) == None
    ensures Matched(path, n) == None
  {
    if m < n {
      MatchedFails(path, m, n - 1);
    }
  }

  /** A token occurs in `s + tail` only in the tail when it begins with a brace that `s` lacks. */
  lemma {:induction false} CountInTail(s: string, tail: string, token: string)
    requires token != "" && token[0] == '{' && '{' !in s
    ensures Count(s + tail, token) == Count(tail, token) && First(s + tail, token) == |s| + First(tail, token)
  {
    if s == "" {
      assert s + tail == tail;
    } else {
      var rest := s[1..] + tail;
      assert (s + tail)[1..] == rest && (s + tail)[0] == s[0];
      CountInTail(s[1..], tail, token);
      assert !(token <= s + tail);
    }
  }

  /** A plain path gets the query expansion appended; the usual one becomes `/dns-query{?dns}`. */
  lemma PlainPath(path: string)
    requires path != "" && path[0] == '/' && !White(path[|path| - 1]) && Ascii(path)
    requires '#' !in path && '?' !in path && '{' !in path && '}' !in path
    ensures NormalizedPath(path) == Some(path + "{?dns}")
    ensures NormalizedPath("/dns-query") == Some("/dns-query{?dns}")
  {
    hide NormalizedPath;
    PlainPathIs(path);
    UsualPath();
    PlainPathIs("/dns-query");
    assert "/dns-query" + "{?dns}" == "/dns-query{?dns}";
  }

  lemma UsualPath()
    ensures var usual := "/dns-query";
            Ascii(usual) && '#' !in usual && '?' !in usual && '{' !in usual && '}' !in usual && !White(usual[|usual| - 1])
  {
    var usual := "/dns-query";
    assert forall i | 0 <= i < |usual| :: '-' <= usual[i] <= 'z' && usual[i] != '?';
  }

  lemma PlainPathIs(path: string)
    requires path != "" && path[0] == '/' && !White(path[|path| - 1]) && Ascii(path)
    requires '#' !in path && '?' !in path && '{' !in path && '}' !in path
    ensures NormalizedPath(path) == Some(path + "{?dns}")
  {
    assert !White('/');
    TrimKeeps(path);
    TailHasNone(path, TOKENS[0]);
    TailHasNone(path, TOKENS[1]);
    TailHasNone(path, TOKENS[2]);
    hide Trim, Count, White;
    assert Matched(path, 0) == Some(None);
    assert Matched(path, 1) == Some(None);
    assert Matched(path, 2) == Some(None);
    assert Matched(path, 3) == Some(None);
  }

  lemma OtherToken(k: nat, j: nat, tail: string)
    requires k < |TOKENS| && j < |TOKENS| && '{' !in tail
    ensures Count(TOKENS[k] + tail, TOKENS[j]) == if j == k then 1 else 0
    ensures First(TOKENS[k] + tail, TOKENS[k]) == 0
  {
    var token, other := TOKENS[k], TOKENS[j];
    var s := token + tail;
    if j == k {
      assert s[|token|..] == tail;
      TailHasNone(tail, token);
    } else {
      assert other[1] != token[1] && s[1] == token[1];
      assert forall i | 1 <= i < |token| :: token[i] != '{';
      assert s[1..] == token[1..] + tail;
      TailHasNone(s[1..], other);
    }
  }

  lemma OneMatched(path: string, k: nat, n: nat)
    requires k < |TOKENS| && n <= |TOKENS|
    requires forall j | 0 <= j < |TOKENS| :: Count(path, TOKENS[j]) == if j == k then 1 else 0
    ensures Matched(path, n) == Some(if k < n then Some(TOKENS[k]) else None)
  {
    hide Count;
    if n > 0 {
      OneMatched(path, k, n - 1);
    }
  }

  lemma CountBehind(before: string, token: string, after: string, other: string)
    requires '{' !in before && other != "" && other[0] == '{'
    ensures Count(before + token + after, other) == Count(token + after, other)
    ensures First(before + token + after, other) == |before| + First(token + after, other)
  {
    hide Count, First;
    CountInTail(before, token + after, other);
    assert before + token + after == before + (token + after);
  }

  lemma TokenCount(before: string, k: nat, j: nat, after: string, path: string)
    requires k < |TOKENS| && j < |TOKENS| && '{' !in before && '{' !in after && path == before + TOKENS[k] + after
    ensures Count(path, TOKENS[j]) == if j == k then 1 else 0
    ensures j == k ==> First(path, TOKENS[k]) == |before|
  {
    OtherToken(k, j, after);
    hide Count, First;
    CountBehind(before, TOKENS[k], after, TOKENS[j]);
  }

  lemma TokenMatches(before: string, k: nat, after: string, path: string)
    requires k < |TOKENS| && '{' !in before && '{' !in after && path == before + TOKENS[k] + after
    ensures Matched(path, |TOKENS|) == Some(Some(TOKENS[k])) && First(path, TOKENS[k]) == |before|
  {
    hide Count, First, Matched;
    TokenCount(before, k, 0, after, path);
    TokenCount(before, k, 1, after, path);
    TokenCount(before, k, 2, after, path);
    OneMatched(path, k, |TOKENS|);
  }

  lemma GoodIff(before: string, token: string, after: string)
    requires First(before + token + after, token) == |before|
    requires (forall c <- before :: c !in "{}#") && (forall c <- after :: c !in "{}#")
    ensures GoodTemplate(before + token + after, token) <==>
            (token == "{?dns}" ==> '?' !in before) && (token == "{&dns}" ==> '?' in before)
  {
    hide First;
    var path := before + token + after;
    assert path[..|before|] == before && path[|before| + |token|..] == after;
  }

  /** A template with one expansion is kept as it is, unless a query starts before `{?dns}` or
      none has started before `{&dns}`. */
  lemma OneTokenTemplate(before: string, k: nat, after: string)
    requires k < |TOKENS| && (forall c <- before :: c !in "{}#") && (forall c <- after :: c !in "{}#")
    requires before != "" && before[0] == '/' && (after != "" ==> !White(after[|after| - 1])) && Ascii(before + after)
    ensures var token := TOKENS[k];
            var path := before + token + after;
            NormalizedPath(path) ==
            if (token == "{?dns}" && '?' in before) || (token == "{&dns}" && '?' !in before) then None else Some(path)
  {
    TokenMatches(before, k, after, before + TOKENS[k] + after);
    GoodIff(before, TOKENS[k], after);
    assert TOKENS[k] in TOKENS;
    TemplateStands(before, TOKENS[k], after);
    hide Matched, First, Trim, Ascii, GoodTemplate, White;
  }

  lemma TemplateStands(before: string, token: string, after: string)
    requires token in TOKENS && (forall c <- before :: c !in "{}#") && (forall c <- after :: c !in "{}#") && Ascii(before + after)
    requires before != "" && before[0] == '/' && (after != "" ==> !White(after[|after| - 1]))
    ensures var path := before + token + after;
            Trim(path) == path && path[0] == '/' && Ascii(path) && '#' !in path
  {
    var path := before + token + after;
    assert forall c <- token :: c < '\U{80}' && c != '#';
    assert path[|path| - 1] == if after == "" then '}' else after[|after| - 1];
    assert forall c <- path :: c in before + after || c in token;
    TrimKeeps(path);
  }

  lemma DefaultToken()
    ensures Count("{?dns}", "{?dns}") == 1 && First("{?dns}", "{?dns}") == 0
    ensures Count("{?dns}", "{&dns}") == 0 && Count("{?dns}", "{dns}") == 0
  {
    var t := "{?dns}";
    assert t[6..] == "";
    TailHasNone(t[1..], "{&dns}");
    TailHasNone(t[1..], "{dns}");
    assert t[1] == '?' && "{&dns}"[1] == '&' && "{dns}"[1] == 'd';
  }

  lemma {:induction false} TailHasNone(s: string, token: string)
    requires token != "" && token[0] !in s
    ensures Count(s, token) == 0
  {
    if s != "" {
      TailHasNone(s[1..], token);
    }
  }

  /** Normalizing a template a second time changes nothing. */
  lemma PathNormalizedOnce(text: string)
    requires NormalizedPath(text).Some?
    ensures NormalizedPath(NormalizedPath(text).value) == NormalizedPath(text)
  {
    var path, out := Trim(text), NormalizedPath(text).value;
    TrimAgain(text);
    if out != path {
      AppendedIsFixed(path);
    }
  }

  lemma TrimStartStops(s: string)
    ensures var t := TrimStart(s, White); t == "" || !White(t[0])
  {
  }

  lemma {:induction false} TrimEndPrefix(s: string, p: char -> bool)
    ensures TrimEnd(s, p) <= s
  {
    if s != [] && p(s[|s| - 1]) {
      TrimEndPrefix(s[..|s| - 1], p);
    }
  }

  lemma TrimAgain(s: string)
    ensures Trim(Trim(s)) == Trim(s)
  {
    TrimStartStops(s);
    TrimEndStops(TrimStart(s, White), White);
    TrimEndPrefix(TrimStart(s, White), White);
    if Trim(s) != "" {
      TrimKeeps(Trim(s));
    }
  }

  lemma AppendedMatches(path: string)
    requires '{' !in path
    ensures Matched(path + "{?dns}", |TOKENS|) == Some(Some("{?dns}"))
  {
    var token, out := "{?dns}", path + "{?dns}";
    DefaultToken();
    CountInTail(path, token, TOKENS[0]);
    CountInTail(path, token, TOKENS[1]);
    CountInTail(path, token, TOKENS[2]);
    hide Count, First;
    assert Matched(out, 0) == Some(None);
    assert Matched(out, 1) == Some(Some(token));
    assert Matched(out, 2) == Some(Some(token));
  }

  lemma AppendedIsGood(path: string)
    requires '?' !in path && '{' !in path && '}' !in path
    ensures GoodTemplate(path + "{?dns}", "{?dns}")
  {
    var token, out := "{?dns}", path + "{?dns}";
    DefaultToken();
    CountInTail(path, token, token);
    hide Count, First;
    assert out[..|path|] == path && out[|path| + |token|..] == "";
    assert Before(out, token) == path && Without(out, token) == path;
  }

  lemma AppendedIsPlain(path: string)
    requires path != "" && path[0] == '/' && Ascii(path) && '#' !in path
    ensures var out := path + "{?dns}"; Trim(out) == out && out[0] == '/' && Ascii(out) && '#' !in out
  {
    hide Trim;
    TrimKeeps(path + "{?dns}");
    assert Ascii("{?dns}");
  }

  lemma AppendedIsFixed(path: string)
    requires path != "" && path[0] == '/' && Ascii(path) && '#' !in path
    requires '?' !in path && '{' !in path && '}' !in path
    ensures NormalizedPath(path + "{?dns}") == Some(path + "{?dns}")
  {
    hide Trim, Matched, GoodTemplate, Ascii;
    AppendedIsPlain(path);
    AppendedMatches(path);
    AppendedIsGood(path);
  }
}
