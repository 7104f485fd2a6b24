/** The JavaScript string operations the source relies on, with their JavaScript meaning:
    `trim`, `toLowerCase`, `includes`, `startsWith`, `replace` with a string pattern,
    `replace(/\s+/g, " ")`, `split` and `join`. */
module Text {
  import opened Wrappers

  /** JavaScript's WhiteSpace and LineTerminator characters: what `trim()` removes and `\s` matches. */
  predicate IsSpace(c: char) {
    || c == ' ' || c == '\t' || c == '\n' || c == '\r' || c == '\U{000B}' || c == '\U{000C}'
    || c == '\U{00A0}' || c == '\U{1680}' || ('\U{2000}' <= c <= '\U{200A}')
    || c == '\U{2028}' || c == '\U{2029}' || c == '\U{202F}' || c == '\U{205F}'
    || c == '\U{3000}' || c == '\U{FEFF}'
  }

  /** `\d` in a JavaScript regular expression: the ASCII digits only. */
  predicate IsDigit(c: char) {
    '0' <= c <= '9'
  }

  /** Drops the leading white space. */
  function TrimStart(s: string): (r: string)
    ensures |r| <= |s| && r == s[|s| - |r|..]
    ensures forall k :: 0 <= k < |s| - |r| ==> IsSpace(s[k])
    ensures r == [] || !IsSpace(r[0])
  {
    if |s| > 0 && IsSpace(s[0]) then TrimStart(s[1..]) else s
  }

  /** Drops the trailing white space. */
  function TrimEnd(s: string): (r: string)
    ensures |r| <= |s| && r == s[..|r|]
    ensures forall k :: |r| <= k < |s| ==> IsSpace(s[k])
    ensures r == [] || !IsSpace(r[|r| - 1])
  {
    if |s| > 0 && IsSpace(s[|s| - 1]) then TrimEnd(s[..|s| - 1]) else s
  }

  /** `s.trim()`. */
  function Trim(s: string): (r: string)
    ensures |r| <= |s|
    ensures r == [] || (!IsSpace(r[0]) && !IsSpace(r[|r| - 1]))
    ensures r == [] <==> forall k :: 0 <= k < |s| ==> IsSpace(s[k])
  {
    TrimEnd(TrimStart(s))
  }

  /** A string without white space at either end is its own trimmed form. */
  lemma TrimOfTrimmed(s: string)
    requires s == [] || (!IsSpace(s[0]) && !IsSpace(s[|s| - 1]))
    ensures Trim(s) == s
  {
    assert TrimStart(s) == s;
  }

  /** What `trim()` keeps is one slice of the input, starting where the leading white space ends. */
  lemma TrimIsSlice(s: string)
    ensures var i := |s| - |TrimStart(s)|;
      && i + |Trim(s)| <= |s|
      && Trim(s) == s[i..i + |Trim(s)|]
  {
    var t := TrimStart(s);
    var i := |s| - |t|;
    var u := TrimEnd(t);
    assert t == s[i..] && u == t[..|u|];
  }

  /** `toLowerCase()` on ASCII letters. */
  function LowerChar(c: char): (r: char)
    ensures !('A' <= r <= 'Z')
    ensures !('A' <= c <= 'Z') ==> r == c
  {
    if 'A' <= c <= 'Z' then (c as int + 32) as char else c
  }

  /** `s.toLowerCase()`, for the ASCII letters. */
  function ToLower(s: string): (r: string)
    ensures |r| == |s|
    ensures forall i :: 0 <= i < |s| ==> r[i] == LowerChar(s[i])
  {
    seq(|s|, i requires 0 <= i < |s| => LowerChar(s[i]))
  }

  /** `s.startsWith(p)`. */
  predicate StartsWith(s: string, p: string) {
    |p| <= |s| && s[..|p|] == p
  }

  /** `sub` occurs in `s` starting at position `k`. */
  predicate OccursAt(s: string, sub: string, k: int) {
    0 <= k && k + |sub| <= |s| && s[k..k + |sub|] == sub
  }

  /** The leftmost occurrence of `sub` in `s` at or after position `k`. */
  function IndexFrom(s: string, sub: string, k: nat): (r: Option<nat>)
    ensures r.Some? ==> k <= r.value && OccursAt(s, sub, r.value)
    ensures r.Some? ==> forall j :: k <= j < r.value ==> !OccursAt(s, sub, j)
    ensures r.None? ==> forall j :: k <= j ==> !OccursAt(s, sub, j)
    decreases |s| + 1 - k
  {
    if k + |sub| > |s| then None
    else if OccursAt(s, sub, k) then Some(k)
    else IndexFrom(s, sub, k + 1)
  }

  /** `s.indexOf(sub)`: the leftmost position where `sub` occurs, if any. */
  function IndexOf(s: string, sub: string): (r: Option<nat>)
    ensures r.Some? ==> OccursAt(s, sub, r.value)
    ensures r.Some? ==> forall j :: 0 <= j < r.value ==> !OccursAt(s, sub, j)
    ensures r.None? ==> forall j :: !OccursAt(s, sub, j)
  {
    IndexFrom(s, sub, 0)
  }

  /** `s.includes(sub)`. */
  predicate Contains(s: string, sub: string) {
    IndexOf(s, sub).Some?
  }

  /** `s.replace(pat, rep)` with a string pattern: only the first occurrence is replaced. */
  function ReplaceFirst(s: string, pat: string, rep: string): string {
    match IndexOf(s, pat)
    case None => s
    case Some(i) => s[..i] + rep + s[i + |pat|..]
  }

  /** `s.replace(/\s+/g, " ")`: every maximal run of white space becomes one plain space. */
  function CollapseSpaces(s: string): (r: string)
    ensures |s| > 0 ==> |r| > 0 && (IsSpace(r[0]) <==> IsSpace(s[0]))
    ensures forall i :: 0 <= i < |r| && IsSpace(r[i]) ==> r[i] == ' '
    ensures forall i :: 0 <= i < |r| - 1 ==> !(IsSpace(r[i]) && IsSpace(r[i + 1]))
    decreases |s|
  {
    if |s| == 0 then ""
    else if IsSpace(s[0]) then
      var rest := TrimStart(s);
      " " + CollapseSpaces(rest)
    else
      [s[0]] + CollapseSpaces(s[1..])
  }

  /** The characters of `s` that are not white space, in order. */
  function NonSpaces(s: string): (r: string)
    ensures |r| <= |s|
    ensures forall k :: 0 <= k < |r| ==> !IsSpace(r[k])
  {
    if |s| == 0 then ""
    else if IsSpace(s[0]) then NonSpaces(s[1..])
    else [s[0]] + NonSpaces(s[1..])
  }

  lemma {:induction false} NonSpacesAppend(a: string, b: string)
    ensures NonSpaces(a + b) == NonSpaces(a) + NonSpaces(b)
    decreases |a|
  {
    if |a| == 0 {
      assert a + b == b;
    } else {
      assert (a + b)[0] == a[0];
      assert (a + b)[1..] == a[1..] + b;
      NonSpacesAppend(a[1..], b);
    }
  }

  lemma {:induction false} TrimStartKeepsNonSpaces(s: string)
    ensures NonSpaces(TrimStart(s)) == NonSpaces(s)
    decreases |s|
  {
    if |s| > 0 && IsSpace(s[0]) {
      TrimStartKeepsNonSpaces(s[1..]);
    }
  }

  lemma {:induction false} TrimEndKeepsNonSpaces(s: string)
    ensures NonSpaces(TrimEnd(s)) == NonSpaces(s)
    decreases |s|
  {
    if |s| > 0 && IsSpace(s[|s| - 1]) {
      var init := s[..|s| - 1];
      assert s == init + [s[|s| - 1]];
      NonSpacesAppend(init, [s[|s| - 1]]);
      TrimEndKeepsNonSpaces(init);
    }
  }

  /** `trim()` drops white space only. */
  lemma TrimKeepsNonSpaces(s: string)
    ensures NonSpaces(Trim(s)) == NonSpaces(s)
  {
    TrimStartKeepsNonSpaces(s);
    TrimEndKeepsNonSpaces(TrimStart(s));
  }

  /** `replace(/\s+/g, " ")` read one character at a time: a white-space character writes a space
      unless the previous character was white space too; any other character is copied. */
  function CollapseFrom(s: string, afterSpace: bool): (r: string)
    ensures NonSpaces(r) == NonSpaces(s)
    decreases |s|
  {
    if |s| == 0 then ""
    else if IsSpace(s[0]) then
      var rest := CollapseFrom(s[1..], true);
      if afterSpace then rest
      else
        assert (" " + rest)[1..] == rest;
        " " + rest
    else
      var rest := CollapseFrom(s[1..], false);
      assert ([s[0]] + rest)[1..] == rest;
      [s[0]] + rest
  }

  lemma {:induction false} CollapseSkipsSpaces(s: string)
    ensures CollapseFrom(s, true) == CollapseFrom(TrimStart(s), true)
    decreases |s|
  {
    if |s| > 0 && IsSpace(s[0]) {
      CollapseSkipsSpaces(s[1..]);
    }
  }

  /** The run-at-a-time and the character-at-a-time readings of `replace(/\s+/g, " ")` agree. */
  lemma {:induction false} CollapseSpacesIsCharByChar(s: string)
    ensures CollapseSpaces(s) == CollapseFrom(s, false)
    decreases |s|
  {
    if |s| > 0 {
      if IsSpace(s[0]) {
        var rest := TrimStart(s);
        CollapseSpacesIsCharByChar(rest);
        CollapseSkipsSpaces(s[1..]);
        assert TrimStart(s[1..]) == rest;
        assert CollapseFrom(rest, true) == CollapseFrom(rest, false);
      } else {
        CollapseSpacesIsCharByChar(s[1..]);
      }
    }
  }

  /** The only white space of `t` is single plain spaces. */
  predicate SingleSpaced(t: string) {
    && (forall i :: 0 <= i < |t| && IsSpace(t[i]) ==> t[i] == ' ')
    && (forall i :: 0 <= i < |t| - 1 ==> !(IsSpace(t[i]) && IsSpace(t[i + 1])))
  }

  /** Trimming a string whose white space is single plain spaces keeps it so. */
  lemma TrimKeepsSingleSpaces(c: string)
    requires SingleSpaced(c)
    ensures SingleSpaced(Trim(c))
  {
    TrimIsSlice(c);
    var i := |c| - |TrimStart(c)|;
    var t := Trim(c);
    forall k | 0 <= k < |t| && IsSpace(t[k]) ensures t[k] == ' ' {
      assert t[k] == c[i + k];
    }
    forall k | 0 <= k < |t| - 1 ensures !(IsSpace(t[k]) && IsSpace(t[k + 1])) {
      assert t[k] == c[i + k] && t[k + 1] == c[i + k + 1];
    }
  }

  /** `s.replace(/\s+/g, " ").trim()` keeps every non-space character of `s`, in order. */
  lemma CollapseThenTrimKeepsNonSpaces(s: string)
    ensures NonSpaces(Trim(CollapseSpaces(s))) == NonSpaces(s)
  {
    CollapseSpacesKeepsNonSpaces(s);
    TrimKeepsNonSpaces(CollapseSpaces(s));
  }

  /** Collapsing white space keeps every other character, in order. */
  lemma CollapseSpacesKeepsNonSpaces(s: string)
    ensures NonSpaces(CollapseSpaces(s)) == NonSpaces(s)
  {
    CollapseSpacesIsCharByChar(s);
  }

  /** The first position holding a separator (or any element meeting the test). */
  function FindWhere<T>(s: seq<T>, isSep: T -> bool): (r: Option<nat>)
    ensures r.Some? ==> r.value < |s| && isSep(s[r.value])
    ensures r.Some? ==> forall k :: 0 <= k < r.value ==> !isSep(s[k])
    ensures r.None? ==> forall k :: 0 <= k < |s| ==> !isSep(s[k])
  {
    if |s| == 0 then None
    else if isSep(s[0]) then Some(0)
    else
      match FindWhere(s[1..], isSep)
      case None => None
      case Some(k) => Some(k + 1)
  }

  /** `s.split(re)` for a pattern matching one separator character: the pieces between separators,
      empty pieces included, so there is always at least one. */
  function SplitWhere(s: string, isSep: char -> bool): (r: seq<string>)
    ensures |r| >= 1
    ensures forall i, k :: 0 <= i < |r| && 0 <= k < |r[i]| ==> !isSep(r[i][k])
    ensures |r| > 1 <==> exists k :: 0 <= k < |s| && isSep(s[k])
    decreases |s|
  {
    match FindWhere(s, isSep)
    case None => [s]
    case Some(i) =>
      var rest := SplitWhere(s[i + 1..], isSep);
      assert forall j :: 1 <= j < |rest| + 1 ==> ([s[..i]] + rest)[j] == rest[j - 1];
      [s[..i]] + rest
  }

  /** `s.split(c)` for a one-character separator. */
  function Split(s: string, c: char): (r: seq<string>)
    ensures |r| >= 1
    ensures forall i :: 0 <= i < |r| ==> c !in r[i]
    ensures |r| > 1 <==> c in s
  {
    var r := SplitWhere(s, x => x == c);
    assert forall i :: 0 <= i < |r| ==> c !in r[i] by {
      forall i | 0 <= i < |r| ensures c !in r[i] {
        assert forall k :: 0 <= k < |r[i]| ==> r[i][k] != c;
      }
    }
    r
  }

  /** `parts.join(sep)`. */
  function Join(parts: seq<string>, sep: string): string {
    if |parts| == 0 then ""
    else if |parts| == 1 then parts[0]
    else parts[0] + sep + Join(parts[1..], sep)
  }

  /** Splitting on a character and joining the pieces with it gives the string back. */
  lemma {:induction false} SplitJoinRoundTrip(s: string, c: char)
    ensures Join(Split(s, c), [c]) == s
    decreases |s|
  {
    match FindWhere(s, x => x == c)
    case None =>
    case Some(i) =>
      var rest := s[i + 1..];
      SplitJoinRoundTrip(rest, c);
      assert Split(s, c) == [s[..i]] + Split(rest, c);
      assert s == s[..i] + [c] + rest;
  }
}
