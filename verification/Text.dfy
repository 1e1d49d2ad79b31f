/** The string operations the models need: trimming, letter case and single-character replacement. */
module Text {

  /** The characters `str.isspace` accepts. */
  predicate IsSpace(c: char) {
    || '\t' <= c <= '\r'
    || '\U{1C}' <= c <= ' '
    || c == '\U{85}' || c == '\U{A0}' || c == '\U{1680}'
    || '\U{2000}' <= c <= '\U{200A}'
    || c == '\U{2028}' || c == '\U{2029}' || c == '\U{202F}' || c == '\U{205F}' || c == '\U{3000}'
  }

  function TrimLeft(s: string): (r: string)
    ensures |r| <= |s|
    ensures r != "" ==> !IsSpace(r[0])
  {
    if s == "" || !IsSpace(s[0]) then s else TrimLeft(s[1..])
  }

  function TrimRight(s: string): (r: string)
    ensures r <= s
    ensures r != "" ==> !IsSpace(r[|r| - 1])
  {
    if s == "" || !IsSpace(s[|s| - 1]) then s else TrimRight(s[..|s| - 1])
  }

  /** `str.strip`. */
  function Strip(s: string): (r: string)
    ensures |r| <= |s|
    ensures r != "" ==> !IsSpace(r[0]) && !IsSpace(r[|r| - 1])
  {
    TrimRight(TrimLeft(s))
  }

  predicate AllSpace(s: string) {
    forall i :: 0 <= i < |s| ==> IsSpace(s[i])
  }

  /** The text stands in the string between nothing but white space, and neither starts nor ends with it. */
  ghost predicate Padded(s: string, text: string) {
    && (text != "" ==> !IsSpace(text[0]) && !IsSpace(text[|text| - 1]))
    && exists before, after :: AllSpace(before) && AllSpace(after) && s == before + text + after
  }

  lemma {:induction false} TrimLeftSkips(before: string, s: string)
    requires AllSpace(before)
    ensures TrimLeft(before + s) == TrimLeft(s)
  {
    if before == "" {
      assert before + s == s;
    } else {
      assert (before + s)[1..] == before[1..] + s;
      TrimLeftSkips(before[1..], s);
    }
  }

  lemma {:induction false} TrimRightSkips(s: string, after: string)
    requires AllSpace(after)
    ensures TrimRight(s + after) == TrimRight(s)
    decreases |after|
  {
    if after == "" {
      assert s + after == s;
    } else {
      var k := |after| - 1;
      assert (s + after)[..|s + after| - 1] == s + after[..k];
      assert (s + after)[|s + after| - 1] == after[k];
      TrimRightSkips(s, after[..k]);
    }
  }

  lemma {:induction false} TrimLeftRest(s: string) returns (before: string)
    ensures AllSpace(before) && s == before + TrimLeft(s)
  {
    if s != "" && IsSpace(s[0]) {
      var rest := TrimLeftRest(s[1..]);
      before := [s[0]] + rest;
      assert s == [s[0]] + s[1..];
    } else {
      before := "";
    }
  }

  lemma OneMoreSpace(text: string, after: string, c: char)
    requires AllSpace(after) && IsSpace(c)
    ensures AllSpace(after + [c]) && text + (after + [c]) == text + after + [c]
  {
  }

  lemma {:induction false} TrimRightRest(s: string) returns (after: string)
    ensures AllSpace(after) && s == TrimRight(s) + after
  {
    if s != "" && IsSpace(s[|s| - 1]) {
      var k := |s| - 1;
      var rest := TrimRightRest(s[..k]);
      OneMoreSpace(TrimRight(s), rest, s[k]);
      after := rest + [s[k]];
      assert s == s[..k] + [s[k]];
    } else {
      after := "";
    }
  }

  /** Stripping leaves the text that the string pads. */
  lemma StripIsPadded(s: string)
    ensures Padded(s, Strip(s))
  {
    hide IsSpace, TrimLeft, TrimRight;
    var before := TrimLeftRest(s);
    var after := TrimRightRest(TrimLeft(s));
    assert s == before + Strip(s) + after;
  }

  lemma SpacesTrimmed(s: string)
    requires AllSpace(s)
    ensures TrimLeft(s) == ""
  {
    TrimLeftSkips(s, "");
    assert s + "" == s;
  }

  lemma StripOfPadded(before: string, text: string, after: string)
    requires AllSpace(before) && AllSpace(after)
    requires text != "" ==> !IsSpace(text[0]) && !IsSpace(text[|text| - 1])
    ensures Strip(before + text + after) == text
  {
    assert before + text + after == before + (text + after);
    TrimLeftSkips(before, text + after);
    if text == "" {
      assert text + after == after;
      SpacesTrimmed(after);
    } else {
      TrimRightSkips(text, after);
    }
  }

  /** And there is only one. */
  lemma StripIff(s: string, text: string)
    ensures Strip(s) == text <==> Padded(s, text)
  {
    hide IsSpace, Strip;
    StripIsPadded(s);
    if Padded(s, text) {
      var before, after :| AllSpace(before) && AllSpace(after) && s == before + text + after;
      StripOfPadded(before, text, after);
    }
  }

  lemma BlankIff(s: string)
    ensures Strip(s) == "" <==> AllSpace(s)
  {
    StripIff(s, "");
    if AllSpace(s) { assert AllSpace("") && s == "" + "" + s; }
  }

  /** `str.upper`, for the Latin letters that an option can be. */
  function Upper(s: string): (r: string)
    ensures |r| == |s|
  {
    seq(|s|, i requires 0 <= i < |s| => UpperChar(s[i]))
  }

  function UpperChar(c: char): char {
    if 'a' <= c <= 'z' then 'A' + (c - 'a') else c
  }

  /** `str.lower`, for Latin and Cyrillic letters. */
  function Lower(s: string): (r: string)
    ensures |r| == |s|
  {
    seq(|s|, i requires 0 <= i < |s| => LowerChar(s[i]))
  }

  function LowerChar(c: char): char {
    if 'A' <= c <= 'Z' then 'a' + (c - 'A')
    else if '\U{410}' <= c <= '\U{42F}' then '\U{430}' + (c - '\U{410}')
    else c
  }

  /** The character is this small letter in either case, or is no capital letter and this itself. */
  predicate OfCase(c: char, small: char) {
    || ('A' <= c <= 'Z' && small as int == c as int + 32)
    || ('\U{410}' <= c <= '\U{42F}' && small as int == c as int + 32)
    || (!('A' <= c <= 'Z') && !('\U{410}' <= c <= '\U{42F}') && small == c)
  }

  /** The text spells this word of small letters. */
  predicate Spells(text: string, word: string) {
    |text| == |word| && forall i :: 0 <= i < |text| ==> OfCase(text[i], word[i])
  }

  lemma LowerIff(text: string, word: string)
    ensures Lower(text) == word <==> Spells(text, word)
  {
    forall c: char, small: char ensures OfCase(c, small) <==> LowerChar(c) == small { CaseIff(c, small); }
    hide OfCase, LowerChar;
  }

  lemma CaseIff(c: char, small: char)
    ensures OfCase(c, small) <==> LowerChar(c) == small
  {
  }

  /** `str.replace` for a single character. */
  function ReplaceChar(s: string, c: char, with: string): string {
    if s == "" then "" else (if s[0] == c then with else [s[0]]) + ReplaceChar(s[1..], c, with)
  }

  lemma {:induction false} ReplaceCharAppend(a: string, b: string, c: char, with: string)
    ensures ReplaceChar(a + b, c, with) == ReplaceChar(a, c, with) + ReplaceChar(b, c, with)
  {
    if a == "" {
      assert a + b == b;
    } else {
      assert (a + b)[1..] == a[1..] + b;
      ReplaceCharAppend(a[1..], b, c, with);
    }
  }

  lemma {:induction false} ReplaceCharAbsent(s: string, c: char, with: string)
    requires c !in s
    ensures ReplaceChar(s, c, with) == s
  {
    if s != "" {
      assert s[0] in s;
      ReplaceCharAbsent(s[1..], c, with);
    }
  }

  lemma ReplaceCharOne(x: char, c: char, with: string)
    ensures ReplaceChar([x], c, with) == if x == c then with else [x]
  {
    assert [x][1..] == "" && ReplaceChar("", c, with) == "";
    assert with + "" == with && [x] + "" == [x];
  }
}
