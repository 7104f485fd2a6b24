/** The text heuristics of src/utils/utils.ts: phone numbers and address lines found in raw text.
    The two regular expressions they use (the phone pattern and the address pattern) are not part
    of this model; they are passed in as functions:
    - `phoneMatches(text)`: every match of the global phone pattern, in order (`text.match(phoneRegex)`;
      the empty sequence stands for `null`);
    - `addressMatch(line)`: the first match of the address pattern in `line` (`match[0]`), if any. */
module Heuristics {
  import opened Wrappers
  import opened Seqs
  import opened Text

  /** The characters `/[^\d+]/g` leaves in place. */
  predicate IsDialable(c: char) {
    IsDigit(c) || c == '+'
  }

  /** `s.replace(/\D/g, "")`: the digits of `s`, in order. */
  function Digits(s: string): (r: string)
    ensures r == Filter(s, IsDigit)
    ensures |r| <= |s|
    ensures forall i :: 0 <= i < |r| ==> IsDigit(r[i])
  {
    if |s| == 0 then ""
    else (if IsDigit(s[0]) then [s[0]] else []) + Digits(s[1..])
  }

  /** `m.replace(/[^\d+]/g, "")`: the digits and plus signs of `m`, in order. */
  function KeepDialable(m: string): (r: string)
    ensures r == Filter(m, IsDialable)
    ensures |r| <= |m|
    ensures forall i :: 0 <= i < |r| ==> IsDialable(r[i])
  {
    if |m| == 0 then ""
    else (if IsDialable(m[0]) then [m[0]] else []) + KeepDialable(m[1..])
  }

  /** Stripping separators never loses or invents a digit. */
  lemma {:induction false} KeepDialableKeepsDigits(m: string)
    ensures Digits(KeepDialable(m)) == Digits(m)
  {
    if |m| > 0 {
      KeepDialableKeepsDigits(m[1..]);
      var head := if IsDialable(m[0]) then [m[0]] else [];
      DigitsAppend(head, KeepDialable(m[1..]));
    }
  }

  lemma {:induction false} DigitsAppend(a: string, b: string)
    ensures Digits(a + b) == Digits(a) + Digits(b)
  {
    if |a| == 0 {
      assert a + b == b;
    } else {
      assert (a + b)[1..] == a[1..] + b;
      DigitsAppend(a[1..], b);
    }
  }

  /** A stripped match is kept when it has 10 or 11 digits. */
  predicate PhoneShaped(p: string) {
    10 <= |Digits(p)| <= 11
  }

  /** The map-and-filter step: each match stripped to digits and `+`, kept when phone-shaped. */
  function PhoneCandidates(matches: seq<string>): (r: seq<string>)
    ensures forall p :: p in r ==> PhoneShaped(p) && exists m :: m in matches && KeepDialable(m) == p
    ensures forall m :: m in matches && PhoneShaped(KeepDialable(m)) ==> KeepDialable(m) in r
  {
    if |matches| == 0 then []
    else
      var p := KeepDialable(matches[0]);
      var rest := PhoneCandidates(matches[1..]);
      assert forall m :: m in matches[1..] ==> m in matches;
      assert forall m :: m in matches ==> m == matches[0] || m in matches[1..];
      assert matches[0] in matches;
      if PhoneShaped(p) then [p] + rest else rest
  }

  /** `matches.map(m => m.replace(/[^\d+]/g, ""))`. */
  function StripAll(matches: seq<string>): (r: seq<string>)
    ensures |r| == |matches|
    ensures forall i :: 0 <= i < |r| ==> r[i] == KeepDialable(matches[i])
  {
    seq(|matches|, i requires 0 <= i < |matches| => KeepDialable(matches[i]))
  }

  /** The candidates are the stripped matches filtered on their shape: the phone-shaped ones, in
      match order, each as often as it was matched. */
  lemma {:induction false} PhoneCandidatesIsFilter(matches: seq<string>)
    ensures PhoneCandidates(matches) == Filter(StripAll(matches), PhoneShaped)
    decreases |matches|
  {
    if |matches| > 0 {
      PhoneCandidatesIsFilter(matches[1..]);
      assert StripAll(matches)[1..] == StripAll(matches[1..]);
    }
  }

  /** `extractPhoneNumbers(text)`. */
  function ExtractPhoneNumbers(text: string, phoneMatches: string -> seq<string>): (r: seq<string>)
    ensures text == "" ==> r == []
    ensures phoneMatches(text) == [] ==> r == []
    ensures NoDups(r)
    ensures forall p :: p in r ==> PhoneShaped(p) && forall i :: 0 <= i < |p| ==> IsDialable(p[i])
    ensures text != "" ==> forall m :: m in phoneMatches(text) && PhoneShaped(KeepDialable(m)) ==>
      KeepDialable(m) in r
    ensures forall p :: p in r ==> exists m :: m in phoneMatches(text) && KeepDialable(m) == p
  {
    if text == "" then []
    else Dedup(PhoneCandidates(phoneMatches(text)))
  }

  /** The numbers come out in the order in which each was first matched: the candidates are the
      phone-shaped stripped matches in match order, and the result orders them by first
      occurrence among those. */
  lemma PhoneNumbersInFirstMatchOrder(text: string, phoneMatches: string -> seq<string>)
    requires text != ""
    ensures var cands := PhoneCandidates(phoneMatches(text));
      cands == Filter(StripAll(phoneMatches(text)), PhoneShaped)
      && IsSubsequence(cands, StripAll(phoneMatches(text)))
    ensures var cands := PhoneCandidates(phoneMatches(text));
      var r := ExtractPhoneNumbers(text, phoneMatches);
      forall i, j :: 0 <= i < j < |r| ==> FirstIndex(cands, r[i]) < FirstIndex(cands, r[j])
  {
    PhoneCandidatesIsFilter(phoneMatches(text));
    FilterIsSubsequence(StripAll(phoneMatches(text)), PhoneShaped);
    DedupKeepsFirstOccurrenceOrder(PhoneCandidates(phoneMatches(text)));
  }

  predicate IsLineBreak(c: char) {
    c == '\n' || c == '\r'
  }

  /** `pieces.map(l => l.trim())`. */
  function TrimEach(pieces: seq<string>): (r: seq<string>)
    ensures |r| == |pieces|
    ensures forall i :: 0 <= i < |r| ==> r[i] == Trim(pieces[i])
  {
    seq(|pieces|, i requires 0 <= i < |pieces| => Trim(pieces[i]))
  }

  /** `text.split(/\n|\r/).map(l => l.trim()).filter(Boolean)`. */
  function NonBlankLines(text: string): (r: seq<string>)
    ensures forall l :: l in r ==> l != "" && !IsSpace(l[0]) && !IsSpace(l[|l| - 1])
    ensures var pieces := SplitWhere(text, IsLineBreak);
      forall l :: l in r <==> l != "" && exists i :: 0 <= i < |pieces| && l == Trim(pieces[i])
    ensures IsSubsequence(r, TrimEach(SplitWhere(text, IsLineBreak)))
  {
    var pieces := SplitWhere(text, IsLineBreak);
    var keep := (l: string) => l != "";
    FilterIsSubsequence(TrimEach(pieces), keep);
    TrimEachMembers(pieces);
    Filter(TrimEach(pieces), keep)
  }

  lemma TrimEachMembers(pieces: seq<string>)
    ensures forall l :: l in TrimEach(pieces) <==> exists i :: 0 <= i < |pieces| && l == Trim(pieces[i])
  {
    var r := TrimEach(pieces);
    forall l | l in r ensures exists i :: 0 <= i < |pieces| && l == Trim(pieces[i]) {
      var i :| 0 <= i < |r| && r[i] == l;
    }
    forall i | 0 <= i < |pieces| ensures Trim(pieces[i]) in r {
      assert r[i] == Trim(pieces[i]);
    }
  }

  /** The scan of the lines: the trimmed match of the first line the address pattern matches. */
  function FirstAddressLine(lines: seq<string>, addressMatch: string -> Option<string>): (r: Option<string>)
    ensures r.Some? <==> exists i :: 0 <= i < |lines| && addressMatch(lines[i]).Some?
    ensures r.Some? ==> exists i :: (0 <= i < |lines| && addressMatch(lines[i]).Some?
      && r.value == Trim(addressMatch(lines[i]).value)
      && forall j :: 0 <= j < i ==> addressMatch(lines[j]).None?)
  {
    var f := TrimmedMatch(addressMatch);
    assert forall k :: 0 <= k < |lines| ==>
      && (f(lines[k]).None? <==> addressMatch(lines[k]).None?)
      && (f(lines[k]).Some? ==> f(lines[k]).value == Trim(addressMatch(lines[k]).value));
    FirstOf(lines, f)
  }

  /** The trimmed match of the address pattern in one line. */
  function TrimmedMatch(addressMatch: string -> Option<string>): string -> Option<string> {
    (l: string) => if addressMatch(l).Some? then Some(Trim(addressMatch(l).value)) else None
  }

  /** `extractAddressFromText(text)`: the trimmed match from the first non-blank line the address
      pattern matches; `None` (null) exactly when no non-blank line matches. */
  function ExtractAddressFromText(text: string, addressMatch: string -> Option<string>): (r: Option<string>)
    ensures r.Some? <==> exists l :: l in NonBlankLines(text) && addressMatch(l).Some?
    ensures r.Some? ==> exists i :: (0 <= i < |NonBlankLines(text)|
      && addressMatch(NonBlankLines(text)[i]).Some?
      && r.value == Trim(addressMatch(NonBlankLines(text)[i]).value)
      && forall j :: 0 <= j < i ==> addressMatch(NonBlankLines(text)[j]).None?)
  {
    FirstAddressLine(NonBlankLines(text), addressMatch)
  }

  lemma {:induction false} FirstAddressLineOnlyReadsLines(lines: seq<string>, m1: string -> Option<string>,
                                                          m2: string -> Option<string>)
    requires forall i :: 0 <= i < |lines| ==> m1(lines[i]) == m2(lines[i])
    ensures FirstAddressLine(lines, m1) == FirstAddressLine(lines, m2)
  {
    var f1, f2 := TrimmedMatch(m1), TrimmedMatch(m2);
    assert forall i :: 0 <= i < |lines| ==> f1(lines[i]) == f2(lines[i]);
    FirstOfOnlyReads(lines, f1, f2);
  }

  /** Blank lines are never handed to the address pattern: two patterns that agree on every
      non-empty string give the same answer on every text. */
  lemma BlankLinesNeverExamined(text: string, m1: string -> Option<string>, m2: string -> Option<string>)
    requires forall s :: s != "" ==> m1(s) == m2(s)
    ensures ExtractAddressFromText(text, m1) == ExtractAddressFromText(text, m2)
  {
    var lines := NonBlankLines(text);
    assert forall i :: 0 <= i < |lines| ==> lines[i] in lines;
    FirstAddressLineOnlyReadsLines(lines, m1, m2);
  }
}
