/** Two parts of the program decide what a host name is: the filter compiler and the resolver
    advertisement. They agree, and the advertisement reads every usual spelling of a name. */
module NameForms {
  import opened AdguardLines
  import opened AdguardMeaning
  import opened DnrNames
  import opened Options
  import opened Text

  lemma {:induction false} EmptyLastLabel(s: string)
    requires s != "" && s[|s| - 1] == '.'
    ensures "" in Labels(s)
    decreases |s|
  {
    var i := Find(s, Dot);
    assert i < |s| by { assert Dot(s[|s| - 1]); }
    var rest := s[i + 1..];
    assert Labels(s) == [s[..i]] + Labels(rest);
    if rest == "" {
      assert Labels(rest) == [""];
    } else {
      EmptyLastLabel(rest);
    }
  }

  lemma SameLabel(part: string)
    ensures ValidLabel(part) <==> LabelOk(part)
  {
    if part != "" {
      assert part[0] in part && part[|part| - 1] in part;
    }
  }

  lemma SameLabels(name: string)
    ensures (forall part <- Labels(name) :: ValidLabel(part)) <==> (forall part <- Labels(name) :: LabelOk(part))
  {
    hide ValidLabel, LabelOk, Labels;
    forall part: string ensures ValidLabel(part) <==> LabelOk(part) {
      SameLabel(part);
    }
  }

  /** A lower-case dotted name is good for the filter compiler exactly when it is a normal form
      of the advertisement. */
  lemma SameNames(name: string)
    requires Lower(name) == name
    ensures ValidLabels(name) <==> NormalName(name) && '.' in name
  {
    SameLabels(name);
    if ValidLabels(name) {
      NameChars(name);
      NameLength(name);
      PlainName(name);
    }
    if NormalName(name) {
      hide Labels;
      PlainChars(name);
      forall i | 0 <= i < |name| ensures name[i] < '\U{80}' {
        assert name[i] in name;
      }
      AsciiLength(name);
    }
  }

  lemma PlainName(name: string)
    requires name != "" && (forall i | 0 <= i < |name| :: NameChar(name[i]))
    requires forall part <- Labels(name) :: ValidLabel(part)
    ensures ByteLen(name) == |name| && name[|name| - 1] != '.'
    ensures forall c <- name :: Alphanumeric(c) || c == '-' || c == '.'
  {
    assert forall i | 0 <= i < |name| :: NameChar(name[i]) && name[i] < '\U{80}';
    AsciiLength(name);
    hide Labels, ByteLen, NameChar;
    if name[|name| - 1] == '.' {
      EmptyLastLabel(name);
    }
    forall c | c in name ensures NameChar(c) {}
    Chars(name);
  }

  lemma Chars(name: string)
    requires forall c <- name :: NameChar(c)
    ensures forall c <- name :: Alphanumeric(c) || c == '-' || c == '.'
  {
  }

  lemma {:induction false} DotsTrimmed(s: string, dots: string)
    requires (s == "" || s[|s| - 1] != '.') && forall i | 0 <= i < |dots| :: dots[i] == '.'
    ensures TrimEnd(s + dots, Dot) == s
    decreases |dots|
  {
    if dots == [] {
      assert s + dots == s;
    } else {
      var k := |dots| - 1;
      DotsTrimmed(s, dots[..k]);
      assert (s + dots)[..|s + dots| - 1] == s + dots[..k];
    }
  }

  /** Letter case, trailing dots and surrounding white space do not change the advertised name. */
  lemma SpellingsAgree(name: string, spelled: string, dots: string, before: string, after: string)
    requires NormalName(name) && Lower(spelled) == name && AllWhite(before) && AllWhite(after)
    requires forall i | 0 <= i < |dots| :: dots[i] == '.'
    ensures NormalizedDomain(before + spelled + dots + after) == Some(name)
  {
    var core := spelled + dots;
    SpelledChars(name, spelled);
    CoreStands(spelled, dots);
    hide White, NormalName, Lower;
    assert before + spelled + dots + after == before + (core + after);
    TrimStartMargin(before, core + after);
    assert core[0] == spelled[0] && (core + after)[0] == core[0];
    StartKept(core + after);
    TrimEndMargin(core, after);
    assert TrimEnd(core, White) == core;
    DotsTrimmed(spelled, dots);
    NormalIsFixed(name);
    LowestForm(before + (core + after), spelled, name);
  }

  lemma SpelledChars(name: string, spelled: string)
    requires NormalName(name) && Lower(spelled) == name
    ensures spelled != "" && spelled[|spelled| - 1] != '.' && forall i | 0 <= i < |spelled| :: NameChar(spelled[i])
  {
    forall i | 0 <= i < |spelled| ensures NameChar(spelled[i]) {
      assert name[i] in name && name[i] == LowerChar(spelled[i]);
    }
    assert name[|name| - 1] == LowerChar(spelled[|spelled| - 1]);
  }

  lemma CoreStands(spelled: string, dots: string)
    requires spelled != "" && (forall i | 0 <= i < |spelled| :: NameChar(spelled[i]))
    requires forall i | 0 <= i < |dots| :: dots[i] == '.'
    ensures var core := spelled + dots; core != "" && !White(core[0]) && !White(core[|core| - 1])
  {
    var core := spelled + dots;
    assert forall i | 0 <= i < |core| :: NameChar(core[i]);
  }

  lemma LowestForm(domain: string, spelled: string, name: string)
    requires TrimEnd(Trim(domain), Dot) == spelled && Lower(spelled) == name && NormalName(name)
    ensures NormalizedDomain(domain) == Some(name)
  {
    hide Trim, TrimEnd, Lower, Labels, LabelOk, Alphanumeric;
    assert forall c <- name :: c != '*' && c < '\U{80}' by { PlainChars(name); }
  }

  lemma PlainChars(name: string)
    requires NormalName(name)
    ensures forall c <- name :: c != '*' && c < '\U{80}'
  {
    hide Labels, LabelOk;
  }
}
