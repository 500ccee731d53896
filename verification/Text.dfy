/** String operations of the Rust standard library, on sequences of characters. */
module Text {
  import opened Options

  function Find(s: string, p: char -> bool): (i: nat)
    ensures i <= |s| && (i < |s| ==> p(s[i])) && forall k :: 0 <= k < i ==> !p(s[k])
  {
    if s == [] || p(s[0]) then 0 else 1 + Find(s[1..], p)
  }

  function SplitOnce(s: string, p: char -> bool): Option<(string, string)> {
    var i := Find(s, p);
    if i < |s| then Some((s[..i], s[i + 1..])) else None
  }

  function LastSplit(s: string, c: char): Option<(string, string)> {
    if s == [] then None
    else if s[|s| - 1] == c then Some((s[..|s| - 1], ""))
    else match LastSplit(s[..|s| - 1], c)
      case None => None
      case Some((left, right)) => Some((left, right + [s[|s| - 1]]))
  }

  function Split(s: string, p: char -> bool): (pieces: seq<string>)
    ensures pieces != []
    decreases |s|
  {
    var i := Find(s, p);
    if i < |s| then [s[..i]] + Split(s[i + 1..], p) else [s]
  }

  function StripPrefix(s: string, prefix: string): Option<string> {
    if prefix <= s then Some(s[|prefix|..]) else None
  }

  predicate EndsWith(s: string, suffix: string) {
    |suffix| <= |s| && s[|s| - |suffix|..] == suffix
  }

  function StripSuffix(s: string, suffix: string): Option<string> {
    if EndsWith(s, suffix) then Some(s[..|s| - |suffix|]) else None
  }

  predicate Contains(s: string, piece: string) {
    piece <= s || (s != [] && Contains(s[1..], piece))
  }

  function TrimStart(s: string, p: char -> bool): string {
    if s != [] && p(s[0]) then TrimStart(s[1..], p) else s
  }

  function TrimEnd(s: string, p: char -> bool): string {
    if s != [] && p(s[|s| - 1]) then TrimEnd(s[..|s| - 1], p) else s
  }

  function Trim(s: string): string {
    TrimEnd(TrimStart(s, White), White)
  }

  lemma TrimKeeps(s: string)
    requires s != "" && !White(s[0]) && !White(s[|s| - 1])
    ensures Trim(s) == s
  {
  }

  /** The Unicode White_Space property. */
  predicate White(c: char) {
    || '\t' <= c <= '\r' || c == ' ' || c == '\U{85}' || c == '\U{A0}' || c == '\U{1680}'
    || '\U{2000}' <= c <= '\U{200A}' || c == '\U{2028}' || c == '\U{2029}' || c == '\U{202F}'
    || c == '\U{205F}' || c == '\U{3000}'
  }

  predicate AsciiWhite(c: char) {
    c == '\t' || c == '\n' || c == '\U{C}' || c == '\r' || c == ' '
  }

  /** Length of the UTF-8 form, which is what the limits count. */
  function ByteLen(s: string): (n: nat)
    ensures n >= |s|
  {
    if s == [] then 0
    else (if s[0] < '\U{80}' then 1 else if s[0] < '\U{800}' then 2 else if s[0] < '\U{10000}' then 3 else 4)
         + ByteLen(s[1..])
  }

  function LowerChar(c: char): char {
    if 'A' <= c <= 'Z' then c - 'A' + 'a' else c
  }

  const UPPER := "ABCDEFGHIJKLMNOPQRSTUVWXYZ"
  const LOWER := "abcdefghijklmnopqrstuvwxyz"

  lemma AlphabetCodes(i: nat)
    requires i < 26
    ensures UPPER[i] as int == 65 + i && LOWER[i] as int == 97 + i
  {
    assert |UPPER| == |LOWER| == 26;
  }

  /** The letters A to Z become a to z, each in its place; every other character stays. */
  lemma LowerIsTheAlphabet(c: char, i: nat)
    requires i < 26
    ensures c == UPPER[i] ==> LowerChar(c) == LOWER[i]
    ensures c !in UPPER ==> LowerChar(c) == c
  {
    AlphabetCodes(i);
    if 'A' <= c <= 'Z' {
      AlphabetCodes(c as int - 65);
      assert UPPER[c as int - 65] == c;
    }
  }

  function Lower(s: string): (r: string)
    ensures |r| == |s| && forall i :: 0 <= i < |s| ==> r[i] == LowerChar(s[i])
  {
    seq(|s|, i requires 0 <= i < |s| => LowerChar(s[i]))
  }

  lemma LowerTwice(s: string)
    ensures Lower(Lower(s)) == Lower(s)
    ensures '.' in s ==> '.' in Lower(s)
  {
    assert forall i :: 0 <= i < |s| && s[i] == '.' ==> Lower(s)[i] == '.';
  }

  predicate Alphanumeric(c: char) {
    '0' <= c <= '9' || 'A' <= c <= 'Z' || 'a' <= c <= 'z'
  }

  predicate Dot(c: char) {
    c == '.'
  }

  function Labels(s: string): (labels: seq<string>)
    ensures labels != []
  {
    Split(s, Dot)
  }

  function Dotted(labels: seq<string>): string
    requires labels != []
  {
    if |labels| == 1 then labels[0] else labels[0] + "." + Dotted(labels[1..])
  }

  lemma {:induction false} DottedLabels(s: string)
    ensures Dotted(Labels(s)) == s
    decreases |s|
  {
    var i := Find(s, Dot);
    if i < |s| {
      DottedLabels(s[i + 1..]);
      assert Labels(s)[1..] == Labels(s[i + 1..]);
      assert s == s[..i] + "." + s[i + 1..];
    }
  }

  /** Each character of a name is a dot or stands in a label. */
  lemma {:induction false} LabelsCover(s: string, c: char)
    requires c in s && c != '.'
    ensures exists part <- Labels(s) :: c in part
    decreases |s|
  {
    var i := Find(s, Dot);
    if i < |s| {
      assert s == s[..i] + "." + s[i + 1..];
      if c in s[..i] {
        assert Labels(s)[0] == s[..i];
      } else {
        LabelsCover(s[i + 1..], c);
        assert Labels(s)[1..] == Labels(s[i + 1..]);
      }
    } else {
      assert Labels(s)[0] == s;
    }
  }
}
