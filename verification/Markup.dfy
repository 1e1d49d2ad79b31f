/**
 Inline markup of question text (`app/utils/markup.py`): `**bold**` and `__italic__` become
 Telegram entities at render time.

 The renderer works on the escaped string; the length function works on the raw one. Both are
 related here through one sequence of glyphs: a visible character, or the opening or closing of
 an entity, which the reader does not see.
 */
module Markup {
  import opened Common
  import opened MarkerPairs
  import opened Text

  const BOLD_MARKER := '*'
  const ITALIC_MARKER := '_'

  datatype MarkupError = UnbalancedBold | UnbalancedItalic | EmptyMarkup

  // ---------- The source's functions ----------

  /** `html.escape(text, quote=False)`: three replacements, the ampersand first. */
  function HtmlEscape(text: Option<string>): string {
    match text
    case None => ""
    case Some(t) =>
      ReplaceChar(ReplaceChar(ReplaceChar(t, '&', "&amp;"), '<', "&lt;"), '>', "&gt;")
  }

  function RenderMarkup(text: Option<string>): string {
    var escaped := HtmlEscape(text);
    var converted := Replace(escaped, BOLD_MARKER, "<b>", "</b>");
    Replace(converted, ITALIC_MARKER, "<i>", "</i>")
  }

  /** The raw text with the marker pairs taken out. */
  function WithoutMarkers(text: string): string {
    Replace(Replace(text, BOLD_MARKER, "", ""), ITALIC_MARKER, "", "")
  }

  function VisibleLength(text: string): nat {
    |WithoutMarkers(text)|
  }

  /** Some match of the marker encloses only white space. */
  predicate HasEmptyPair(text: string, marker: char) {
    exists g :: g in Groups(text, marker) && Strip(g) == ""
  }

  /** What the validator accepts. */
  predicate Accepted(text: string) {
    && CountPairs(text, BOLD_MARKER) % 2 == 0
    && CountPairs(text, ITALIC_MARKER) % 2 == 0
    && !HasEmptyPair(text, BOLD_MARKER)
    && !HasEmptyPair(text, ITALIC_MARKER)
  }

  method ValidateMarkup(text: string) returns (errors: seq<MarkupError>)
    ensures errors == [] <==> Accepted(text)
    ensures UnbalancedBold in errors <==> CountPairs(text, BOLD_MARKER) % 2 != 0
    ensures UnbalancedItalic in errors <==> CountPairs(text, ITALIC_MARKER) % 2 != 0
    ensures EmptyMarkup in errors <==> HasEmptyPair(text, BOLD_MARKER) || HasEmptyPair(text, ITALIC_MARKER)
    ensures EmptyMarkup in errors <==>
            exists g :: (g in Groups(text, BOLD_MARKER) || g in Groups(text, ITALIC_MARKER)) && AllSpace(g)
    ensures forall i, j :: 0 <= i < j < |errors| ==> Rank(errors[i]) < Rank(errors[j])
  {
    EmptyPairIff(text, BOLD_MARKER);
    EmptyPairIff(text, ITALIC_MARKER);
    errors := [];
    if CountPairs(text, BOLD_MARKER) % 2 != 0 {
      errors := errors + [UnbalancedBold];
    }
    if CountPairs(text, ITALIC_MARKER) % 2 != 0 {
      errors := errors + [UnbalancedItalic];
    }
    if HasEmptyPair(text, BOLD_MARKER) || HasEmptyPair(text, ITALIC_MARKER) {
      errors := errors + [EmptyMarkup];
    }
  }

  /** A pair is empty if there is nothing but white space between its markers. */
  lemma EmptyPairIff(text: string, marker: char)
    ensures HasEmptyPair(text, marker) <==> exists g :: g in Groups(text, marker) && AllSpace(g)
  {
    hide Groups, Strip;
    forall g ensures Strip(g) == "" <==> AllSpace(g) { BlankIff(g); }
  }

  function Rank(e: MarkupError): nat {
    match e
    case UnbalancedBold => 0
    case UnbalancedItalic => 1
    case EmptyMarkup => 2
  }

  // ---------- Glyphs ----------

  datatype Tag = Bold | Italic
  datatype Glyph = Ch(c: char) | Open(tag: Tag) | Close(tag: Tag)

  function EscapeChar(c: char): string {
    match c
    case '&' => "&amp;"
    case '<' => "&lt;"
    case '>' => "&gt;"
    case _ => [c]
  }

  function Letter(tag: Tag): char {
    match tag case Bold => 'b' case Italic => 'i'
  }

  function OpenTag(tag: Tag): string { ['<', Letter(tag), '>'] }

  function CloseTag(tag: Tag): string { ['<', '/', Letter(tag), '>'] }

  /** How a glyph is written in the message. */
  function Written(g: Glyph): string {
    match g
    case Ch(c) => EscapeChar(c)
    case Open(tag) => OpenTag(tag)
    case Close(tag) => CloseTag(tag)
  }

  /** What the reader sees of a glyph. */
  function Seen(g: Glyph): string {
    if g.Ch? then [g.c] else ""
  }

  function Emit(gs: seq<Glyph>): string { FlatMap(Written, gs) }

  function SeenText(gs: seq<Glyph>): string { FlatMap(Seen, gs) }

  function Char(c: char): seq<Glyph> { [Ch(c)] }

  function Chars(text: string): seq<Glyph> { FlatMap(Char, text) }

  function BoldGlyphs(text: string): seq<Glyph> {
    Replace(Chars(text), Ch(BOLD_MARKER), [Open(Bold)], [Close(Bold)])
  }

  function Glyphs(text: string): seq<Glyph> {
    Replace(BoldGlyphs(text), Ch(ITALIC_MARKER), [Open(Italic)], [Close(Italic)])
  }

  /** What the start of a message shows, and how many characters that took: entities are taken
      out, character references are decoded. */
  function FirstShown(html: string): (r: (string, nat))
    requires html != ""
    ensures 1 <= r.1 <= |html|
  {
    if "&amp;" <= html then ("&", 5)
    else if "&lt;" <= html then ("<", 4)
    else if "&gt;" <= html then (">", 4)
    else if "<b>" <= html || "<i>" <= html then ("", 3)
    else if "</b>" <= html || "</i>" <= html then ("", 4)
    else ([html[0]], 1)
  }

  /** What Telegram shows for a message. */
  function Decode(html: string): string
    decreases |html|
  {
    if html == "" then ""
    else
      var (shown, n) := FirstShown(html);
      shown + Decode(html[n..])
  }

  // ---------- Escaping ----------

  lemma {:induction false} EscapeIsCharwise(t: string)
    ensures HtmlEscape(Some(t)) == FlatMap(EscapeChar, t)
  {
    if t != "" {
      var a, r := [t[0]], t[1..];
      assert t == a + r;
      EscapeIsCharwise(r);
      ReplaceCharAppend(a, r, '&', "&amp;");
      var a1, r1 := ReplaceChar(a, '&', "&amp;"), ReplaceChar(r, '&', "&amp;");
      ReplaceCharAppend(a1, r1, '<', "&lt;");
      var a2, r2 := ReplaceChar(a1, '<', "&lt;"), ReplaceChar(r1, '<', "&lt;");
      ReplaceCharAppend(a2, r2, '>', "&gt;");
      EscapeOne(t[0]);
    }
  }

  lemma EscapeOne(c: char)
    ensures HtmlEscape(Some([c])) == EscapeChar(c)
  {
    var s := ReplaceChar([c], '&', "&amp;");
    ReplaceCharOne(c, '&', "&amp;");
    if c == '&' {
      ReplaceCharAbsent(s, '<', "&lt;");
      ReplaceCharAbsent(s, '>', "&gt;");
    } else {
      var u := ReplaceChar(s, '<', "&lt;");
      ReplaceCharOne(c, '<', "&lt;");
      if c == '<' {
        ReplaceCharAbsent(u, '>', "&gt;");
      } else {
        ReplaceCharOne(c, '>', "&gt;");
      }
    }
  }

  lemma {:induction false} EmitChars(t: string)
    ensures Emit(Chars(t)) == FlatMap(EscapeChar, t)
    ensures SeenText(Chars(t)) == t
    ensures forall g :: g in Chars(t) ==> g.Ch? && g.c in t
  {
    hide EscapeChar;
    if t != "" {
      var rest := Chars(t[1..]);
      EmitChars(t[1..]);
      assert Chars(t) == [Ch(t[0])] + rest;
      FlatMapCons(Written, Ch(t[0]), rest);
      FlatMapCons(Seen, Ch(t[0]), rest);
      assert SeenText(Chars(t)) == [t[0]] + t[1..];
    }
  }

  /** Neither marker occurs in what any other glyph is written as. */
  lemma WrittenShows(gs: seq<Glyph>, m: char)
    requires m == BOLD_MARKER || m == ITALIC_MARKER
    ensures Shows(Written, gs, Ch(m), m)
  {
  }

  lemma EmitPass(gs: seq<Glyph>, m: char, tag: Tag)
    requires m == BOLD_MARKER || m == ITALIC_MARKER
    ensures Replace(Emit(gs), m, OpenTag(tag), CloseTag(tag)) == Emit(Replace(gs, Ch(m), [Open(tag)], [Close(tag)]))
  {
    WrittenShows(gs, m);
    ReplaceFlatMap(Written, gs, Ch(m), m, [Open(tag)], [Close(tag)]);
    FlatMapOne(Written, Open(tag));
    FlatMapOne(Written, Close(tag));
  }

  /** Escaping first and looking for bold afterwards is the same as looking for bold in the raw
      text and escaping the characters afterwards. */
  lemma BoldCommutesWithEscape(t: string)
    ensures Replace(HtmlEscape(Some(t)), BOLD_MARKER, "<b>", "</b>") == Emit(BoldGlyphs(t))
  {
    EscapeIsCharwise(t);
    EmitChars(t);
    EmitPass(Chars(t), BOLD_MARKER, Bold);
  }

  lemma RenderIsEmit(t: string)
    ensures RenderMarkup(Some(t)) == Emit(Glyphs(t))
  {
    BoldCommutesWithEscape(t);
    EmitPass(BoldGlyphs(t), ITALIC_MARKER, Italic);
  }

  // ---------- What the reader sees ----------

  lemma FirstShownWritten(g: Glyph, rest: string)
    ensures var w := Written(g) + rest;
            FirstShown(w) == (Seen(g), |Written(g)|)
  {
    var w := Written(g) + rest;
    assert w[0] == Written(g)[0];
    assert Written(g) <= w;
    if |Written(g)| > 1 { assert w[1] == Written(g)[1] && w[2] == Written(g)[2]; }
  }

  /** A glyph at the start of a message is shown as that glyph. */
  lemma DecodeWritten(g: Glyph, rest: string)
    ensures Decode(Written(g) + rest) == Seen(g) + Decode(rest)
  {
    FirstShownWritten(g, rest);
    DropPrefix(Written(g), rest);
  }

  lemma {:induction false} DecodeEmitThen(gs: seq<Glyph>, rest: string)
    ensures Decode(Emit(gs) + rest) == SeenText(gs) + Decode(rest)
  {
    if gs == [] {
      assert Emit(gs) + rest == rest;
    } else {
      DecodeEmitThen(gs[1..], rest);
      var tail := Emit(gs[1..]) + rest;
      Associate(Written(gs[0]), Emit(gs[1..]), rest);
      DecodeWritten(gs[0], tail);
      Associate(Seen(gs[0]), SeenText(gs[1..]), Decode(rest));
    }
  }

  lemma DecodeEmit(gs: seq<Glyph>)
    ensures Decode(Emit(gs)) == SeenText(gs)
  {
    DecodeEmitThen(gs, "");
    assert Emit(gs) + "" == Emit(gs);
  }

  /** The bold pass leaves the same visible text whether or not the tags are written. */
  lemma BoldSeen(t: string)
    ensures SeenText(BoldGlyphs(t)) == Replace(t, BOLD_MARKER, "", "")
  {
    EmitChars(t);
    ReplaceFlatMap(Seen, Chars(t), Ch(BOLD_MARKER), BOLD_MARKER, [Open(Bold)], [Close(Bold)]);
    FlatMapOne(Seen, Open(Bold));
    FlatMapOne(Seen, Close(Bold));
  }

  /** The first visible character at or after the start. */
  predicate SeenStartsWith(gs: seq<Glyph>, m: char) {
    gs != [] && if gs[0].Ch? then gs[0].c == m else SeenStartsWith(gs[1..], m)
  }

  /** Deleting the tags brings no two markers together. */
  predicate NoJoin(gs: seq<Glyph>, m: char) {
    gs == []
    || (&& NoJoin(gs[1..], m)
        && (gs[0] == Ch(m) && |gs| > 1 && !gs[1].Ch? ==> !SeenStartsWith(gs[1..], m)))
  }

  lemma {:induction false} SeenStart(gs: seq<Glyph>, m: char)
    ensures SeenStartsWith(gs, m) <==> SeenText(gs) != "" && SeenText(gs)[0] == m
  {
    if gs != [] && !gs[0].Ch? {
      SeenStart(gs[1..], m);
      assert SeenText(gs) == "" + SeenText(gs[1..]);
    }
  }

  function StripPair(r: Cut<Glyph>): Cut<char> {
    match r
    case NoCut => NoCut
    case Cut(b, a) => Cut(SeenText(b), SeenText(a))
  }

  lemma StripPrepend(g: Glyph, r: Cut<Glyph>)
    ensures StripPair(Prepend([g], r)) == Prepend(Seen(g), StripPair(r))
  {
    if r.Cut? { FlatMapCons(Seen, g, r.before); }
  }

  /** Under `NoJoin` the pairs of the visible text are the pairs of the glyphs. */
  lemma {:induction false} FirstPairSeen(gs: seq<Glyph>, m: char)
    requires NoJoin(gs, m)
    ensures FirstPair(SeenText(gs), m) == StripPair(FirstPair(gs, Ch(m)))
  {
    if gs != [] {
      var t := gs[1..];
      var w := SeenText(t);
      FirstPairSeen(t, m);
      StripPrepend(gs[0], FirstPair(t, Ch(m)));
      if !gs[0].Ch? {
        assert "" + w == w;
        PrependNone(StripPair(FirstPair(t, Ch(m))));
        if |gs| == 1 { assert t == []; }
      } else {
        var c := gs[0].c;
        assert SeenText(gs) == [c] + w && ([c] + w)[1..] == w;
        SeenStart(t, m);
        if c == m && t != [] && t[0] == Ch(m) {
          assert w == [m] + SeenText(t[1..]);
          assert ([c] + w)[2..] == SeenText(t[1..]);
          assert gs[2..] == t[1..];
        } else if t == [] {
          assert w == "";
        } else {
          assert c == m ==> w == "" || w[0] != m;
          FirstPairStep(c, w, m);
        }
      }
    }
  }

  lemma FirstPairStep(c: char, w: string, m: char)
    requires !(c == m && w != "" && w[0] == m)
    ensures FirstPair([c] + w, m) == Prepend([c], FirstPair(w, m))
  {
    assert ([c] + w)[1..] == w;
  }

  lemma {:induction false} NoJoinDrop(gs: seq<Glyph>, m: char, k: nat)
    requires NoJoin(gs, m) && k <= |gs|
    ensures NoJoin(gs[k..], m)
  {
    if k > 0 {
      NoJoinDrop(gs[1..], m, k - 1);
      assert gs[1..][k - 1..] == gs[k..];
    } else {
      assert gs[k..] == gs;
    }
  }

  /** The match at the first position agrees as well. */
  lemma MatchSeen(gs: seq<Glyph>, m: char)
    requires gs != [] && gs[0].Ch? && NoJoin(gs, m)
    ensures Match(SeenText(gs), m) == StripPair(Match(gs, Ch(m)))
  {
    var t := gs[1..];
    assert SeenText(gs) == [gs[0].c] + SeenText(t);
    SeenStart(t, m);
    if gs[0] == Ch(m) && |gs| >= 2 && gs[1] == Ch(m) {
      var u := gs[2..];
      assert t[1..] == u && SeenText(t) == [m] + SeenText(u);
      assert SeenText(gs) == [m, m] + SeenText(u);
      NoJoinDrop(gs, m, 1);
      SeenStart(u, m);
      if u != [] {
        var v := gs[3..];
        assert u[1..] == v;
        NoJoinDrop(gs, m, 3);
        FirstPairSeen(v, m);
        StripPrepend(u[0], FirstPair(v, Ch(m)));
        MatchTail(u[0], SeenText(v), m);
      } else {
        assert SeenText(u) == "";
      }
    } else if t != [] && t[0].Ch? {
      assert SeenText(t)[0] == t[0].c;
    }
  }

  /** The group is not empty even when it starts with a tag: no marker can follow that tag. */
  lemma MatchTail(g: Glyph, w: string, m: char)
    requires !g.Ch? ==> w == "" || w[0] != m
    ensures Match([m, m] + (Seen(g) + w), m) == Prepend(Seen(g), FirstPair(w, m))
  {
    if g.Ch? {
      MatchOpenedByChar(g.c, w, m);
    } else {
      assert Seen(g) + w == w;
      PrependNone(FirstPair(w, m));
      if w != "" {
        assert w == [w[0]] + w[1..];
        MatchOpenedByChar(w[0], w[1..], m);
        FirstPairStep(w[0], w[1..], m);
      }
    }
  }

  lemma MatchOpenedByChar(c: char, w: string, m: char)
    ensures Match([m, m] + ([c] + w), m) == Prepend([c], FirstPair(w, m))
  {
    MatchOpened([c], w, m);
  }

  /** Under `NoJoin`, taking the italic pairs out of the visible text is what the tags hide. */
  lemma {:induction false} ItalicSeen(gs: seq<Glyph>, m: char, tag: Tag)
    requires NoJoin(gs, m)
    ensures SeenText(Replace(gs, Ch(m), [Open(tag)], [Close(tag)])) == Replace(SeenText(gs), m, "", "")
    decreases |gs|
  {
    if gs != [] {
      var o, c := [Open(tag)], [Close(tag)];
      var t := gs[1..];
      if gs[0].Ch? {
        MatchSeen(gs, m);
        match Match(gs, Ch(m))
        case Cut(group, rest) =>
          NoJoinDrop(gs, m, |gs| - |rest|);
          assert gs[|gs| - |rest|..] == rest;
          ItalicSeen(rest, m, tag);
          var r := Replace(rest, Ch(m), o, c);
          FlatMapAppend(Seen, o + group + c, r);
          FlatMapAppend(Seen, o + group, c);
          FlatMapAppend(Seen, o, group);
          FlatMapOne(Seen, Open(tag));
          FlatMapOne(Seen, Close(tag));
          assert SeenText(gs) != "";
        case NoCut =>
          ItalicSeen(t, m, tag);
          FlatMapCons(Seen, gs[0], Replace(t, Ch(m), o, c));
          assert SeenText(gs) == [gs[0].c] + SeenText(t) && SeenText(gs)[1..] == SeenText(t);
      } else {
        ItalicSeen(t, m, tag);
        FlatMapCons(Seen, gs[0], Replace(t, Ch(m), o, c));
        assert SeenText(gs) == SeenText(t);
      }
    }
  }

  /** The renderer and the length function agree: whenever deleting the bold tags joins no two
      underscores, what the reader sees is the raw text without its marker pairs. */
  lemma RendererAndLengthAgree(t: string)
    requires NoJoin(BoldGlyphs(t), ITALIC_MARKER)
    ensures Decode(RenderMarkup(Some(t))) == WithoutMarkers(t)
    ensures |Decode(RenderMarkup(Some(t)))| == VisibleLength(t)
  {
    RenderIsEmit(t);
    DecodeEmit(Glyphs(t));
    BoldSeen(t);
    ItalicSeen(BoldGlyphs(t), ITALIC_MARKER, Italic);
  }

  // ---------- Exactly when the lengths agree ----------

  lemma {:induction false} SeenAfterPass(gs: seq<Glyph>, m: char, tag: Tag)
    ensures |SeenText(gs)| == |SeenText(Replace(gs, Ch(m), [Open(tag)], [Close(tag)]))| + 4 * |Groups(gs, Ch(m))|
    decreases |gs|
  {
    if gs != [] {
      var o, c := [Open(tag)], [Close(tag)];
      match Match(gs, Ch(m))
      case Cut(group, rest) =>
        SeenAfterPass(rest, m, tag);
        var r := Replace(rest, Ch(m), o, c);
        var mm := [Ch(m), Ch(m)];
        assert mm == [Ch(m)] + [Ch(m)];
        FlatMapCons(Seen, Ch(m), [Ch(m)]);
        FlatMapOne(Seen, Ch(m));
        FlatMapAppend(Seen, mm + group + mm, rest);
        FlatMapAppend(Seen, mm + group, mm);
        FlatMapAppend(Seen, mm, group);
        FlatMapAppend(Seen, o + group + c, r);
        FlatMapAppend(Seen, o + group, c);
        FlatMapAppend(Seen, o, group);
        FlatMapOne(Seen, Open(tag));
        FlatMapOne(Seen, Close(tag));
      case NoCut =>
        SeenAfterPass(gs[1..], m, tag);
        FlatMapCons(Seen, gs[0], Replace(gs[1..], Ch(m), o, c));
    }
  }

  lemma {:induction false} LengthAfterPass(s: string, m: char)
    ensures |s| == |Replace(s, m, "", "")| + 4 * |Groups(s, m)|
    decreases |s|
  {
    if s != "" {
      match Match(s, m)
      case Cut(group, rest) => LengthAfterPass(rest, m);
      case NoCut => LengthAfterPass(s[1..], m);
    }
  }

  /** For every text: the shown length is `VisibleLength` exactly when the italic pass finds as
      many pairs among the bold tags as it finds with the bold markers deleted. */
  lemma LengthsAgreeIff(t: string)
    ensures |Decode(RenderMarkup(Some(t)))| == VisibleLength(t)
            <==> |Groups(BoldGlyphs(t), Ch(ITALIC_MARKER))| == |Groups(Replace(t, BOLD_MARKER, "", ""), ITALIC_MARKER)|
  {
    RenderIsEmit(t);
    DecodeEmit(Glyphs(t));
    BoldSeen(t);
    SeenAfterPass(BoldGlyphs(t), ITALIC_MARKER, Italic);
    LengthAfterPass(Replace(t, BOLD_MARKER, "", ""), ITALIC_MARKER);
  }

  /** Without underscore pairs of its own, a text renders without italics. */
  lemma NoItalics(t: string)
    requires CountPairs(t, ITALIC_MARKER) == 0
    ensures |Decode(RenderMarkup(Some(t)))| == |Replace(t, BOLD_MARKER, "", "")|
  {
    var gs, m := Chars(t), Ch(ITALIC_MARKER);
    EmitChars(t);
    CountFlatMap(Seen, gs, m, ITALIC_MARKER);
    OtherPairsKept(gs, Ch(BOLD_MARKER), [Open(Bold)], [Close(Bold)], m);
    NoPairNoGroup(BoldGlyphs(t), m);
    RenderIsEmit(t);
    DecodeEmit(Glyphs(t));
    BoldSeen(t);
    SeenAfterPass(BoldGlyphs(t), ITALIC_MARKER, Italic);
  }

  /** The two differ on `_**_a_**_`: deleting the bold markers makes italic markers. */
  lemma LengthsCanDiffer()
    ensures exists t :: VisibleLength(t) == 1 && |Decode(RenderMarkup(Some(t)))| == 5
  {
    ExampleBold("_**_a_**_");
    ExampleItalic("__a__");
    ExampleNoItalics("_**_a_**_");
    NoItalics("_**_a_**_");
    assert VisibleLength("_**_a_**_") == 1;
  }

  lemma ExampleBold(t: string)
    requires t == "_**_a_**_"
    ensures Replace(t, BOLD_MARKER, "", "") == "__a__"
  {
    hide Replace, Match;
    var u := "**_a_**_";
    assert t == "_" + u;
    ReplaceSkip("_", u, '*', "", "");
    ExampleMatch(u);
    MatchedReplace(u, "_a_", "_");
    ExampleLone("_");
    assert "" + "_a_" + "" + "_" == "_a__" && "_" + "_a__" == "__a__";
  }

  lemma MatchedReplace(u: string, group: string, rest: string)
    requires u != "" && Match(u, BOLD_MARKER) == Cut(group, rest)
    ensures Replace(u, BOLD_MARKER, "", "") == "" + group + "" + Replace(rest, BOLD_MARKER, "", "")
  {
  }

  lemma ExampleLone(u: string)
    requires u == "_"
    ensures Replace(u, BOLD_MARKER, "", "") == "_"
  {
    ReplaceSkip("_", "", '*', "", "");
    assert "_" + "" == "_" && Replace("", '*', "", "") == "";
  }

  lemma ExampleMatch(u: string)
    requires u == "**_a_**_"
    ensures Match(u, BOLD_MARKER) == Cut("_a_", "_")
  {
    assert u == ['*', '*'] + ("_" + "a_**_");
    assert "a_**_" == "a_" + "**_" && "**_"[2..] == "_";
    FirstPairSkip("a_", "**_", '*');
    MatchOpened("_", "a_**_", '*');
    assert "a_" + "" == "a_" && "_" + "a_" == "_a_";
  }

  lemma ExampleNoItalics(t: string)
    requires t == "_**_a_**_"
    ensures CountPairs(t, ITALIC_MARKER) == 0
  {
    var m := ITALIC_MARKER;
    assert t == "_" + ("*" + ("*_" + ("a_" + ("*" + "*_"))));
    CountAppend("_", "*" + ("*_" + ("a_" + ("*" + "*_"))), m);
    CountAppend("*", "*_" + ("a_" + ("*" + "*_")), m);
    CountAppend("*_", "a_" + ("*" + "*_"), m);
    CountAppend("a_", "*" + "*_", m);
    CountAppend("*", "*_", m);
  }

  lemma ExampleItalic(w: string)
    requires w == "__a__"
    ensures Replace(w, ITALIC_MARKER, "", "") == "a"
  {
    assert w == ['_', '_'] + ("a" + "__");
    assert "__"[2..] == "";
    MatchOpened("a", "__", '_');
    assert "a" + "" == "a";
  }

  // ---------- Nothing stray is left ----------

  /** Without four equal markers in a row, the rendered text keeps exactly the odd pair of each
      kind: no `**` and no `__` is left if and only if both markers occur an even number of times. */
  lemma LeftoverMarkers(t: string)
    requires NoRunOfFour(t, BOLD_MARKER) && NoRunOfFour(t, ITALIC_MARKER)
    ensures var out := RenderMarkup(Some(t));
            && CountPairs(out, BOLD_MARKER) == CountPairs(t, BOLD_MARKER) % 2
            && CountPairs(out, ITALIC_MARKER) == CountPairs(t, ITALIC_MARKER) % 2
  {
    EscapeIsCharwise(t);
    var e := FlatMap(EscapeChar, t);
    assert Shows(EscapeChar, t, '*', '*') && Shows(EscapeChar, t, '_', '_');
    CountFlatMap(EscapeChar, t, '*', '*');
    CountFlatMap(EscapeChar, t, '_', '_');
    RunsFlatMap(EscapeChar, t, '*', '*');
    RunsFlatMap(EscapeChar, t, '_', '_');
    var b := Replace(e, '*', "<b>", "</b>");
    LeftoverPairs(e, '*', "<b>", "</b>");
    OtherPairsKept(e, '*', "<b>", "</b>", '_');
    OtherRunsKept(e, '*', "<b>", "</b>", '_');
    LeftoverPairs(b, '_', "<i>", "</i>");
    OtherPairsKept(b, '_', "<i>", "</i>", '*');
  }

  /** So what the validator accepts renders without stray markers. */
  lemma AcceptedRendersClean(t: string)
    requires NoRunOfFour(t, BOLD_MARKER) && NoRunOfFour(t, ITALIC_MARKER) && Accepted(t)
    ensures var out := RenderMarkup(Some(t));
            forall i :: 0 <= i && i + 1 < |out| ==> !(out[i] == out[i + 1] == '*') && !(out[i] == out[i + 1] == '_')
  {
    LeftoverMarkers(t);
    var out := RenderMarkup(Some(t));
    CountZero(out, '*');
    CountZero(out, '_');
  }

  /** For every text: a `**` is left exactly if some bold group or the text after the last one holds a
      `**`, and a `__` exactly if some italic group or the text after the last one holds a `__`, where
      italics are looked for among the characters and the bold tags. */
  lemma StrayMarkersIff(t: string)
    ensures var out, b := RenderMarkup(Some(t)), BoldGlyphs(t);
            && (HasPair(out, BOLD_MARKER)
                <==> PairInGroup(t, BOLD_MARKER) || HasPair(Tail(t, BOLD_MARKER), BOLD_MARKER))
            && (HasPair(out, ITALIC_MARKER) <==>
                PairInGroup(b, Ch(ITALIC_MARKER)) || HasPair(Tail(b, Ch(ITALIC_MARKER)), Ch(ITALIC_MARKER)))
  {
    StrayBold(t);
    StrayItalic(t);
  }

  lemma StrayBold(t: string)
    ensures HasPair(RenderMarkup(Some(t)), '*') <==> PairInGroup(t, '*') || HasPair(Tail(t, '*'), '*')
  {
    EscapeIsCharwise(t);
    var e := FlatMap(EscapeChar, t);
    assert Shows(EscapeChar, t, '*', '*');
    var b := Replace(e, '*', "<b>", "</b>");
    OtherPairsKept(b, '_', "<i>", "</i>", '*');
    PairIsCounted(b, '*');
    PairIsCounted(RenderMarkup(Some(t)), '*');
    PairsLeftIff(e, '*', "<b>", "</b>");
    PlainPassIff(t, e, ['|']);
    PairsLeftIff(e, '*', ['|'], ['|']);
    PairsLeftIff(t, '*', ['|'], ['|']);
  }

  /** With a separator that is not escaped, the pass leaves the same pairs in the raw and the escaped text. */
  lemma PlainPassIff(t: string, e: string, bar: string)
    requires e == FlatMap(EscapeChar, t) && |bar| == 1 && EscapeChar(bar[0]) == bar
    ensures HasPair(Replace(e, '*', bar, bar), '*') <==> HasPair(Replace(t, '*', bar, bar), '*')
  {
    var r := Replace(t, '*', bar, bar);
    FlatMapOne(EscapeChar, bar[0]);
    hide Replace, FlatMap, CountPairs, HasPair;
    assert [bar[0]] == bar;
    assert Shows(EscapeChar, t, '*', '*') && Shows(EscapeChar, r, '*', '*');
    ReplaceFlatMap(EscapeChar, t, '*', '*', bar, bar);
    CountFlatMap(EscapeChar, r, '*', '*');
    PairIsCounted(r, '*');
    PairIsCounted(FlatMap(EscapeChar, r), '*');
  }

  lemma StrayItalic(t: string)
    ensures var b := BoldGlyphs(t);
            HasPair(RenderMarkup(Some(t)), '_') <==> PairInGroup(b, Ch('_')) || HasPair(Tail(b, Ch('_')), Ch('_'))
  {
    RenderIsEmit(t);
    WrittenShows(Glyphs(t), '_');
    CountFlatMap(Written, Glyphs(t), Ch('_'), '_');
    PairIsCounted(Glyphs(t), Ch('_'));
    PairIsCounted(RenderMarkup(Some(t)), '_');
    PairsLeftIff(BoldGlyphs(t), Ch('_'), [Open(Italic)], [Close(Italic)]);
  }

  /** The side condition matters: four stars are accepted and stay in the output. */
  lemma FourStarsSlipThrough()
    ensures Accepted("****") && RenderMarkup(Some("****")) == "****"
  {
    assert Groups("****", '*') == [] && Groups("****", '_') == [];
    assert CountPairs("****", '*') == 2 && CountPairs("****", '_') == 0;
  }

  // ---------- Tags ----------

  /** Every `<` of the output begins one of the four tags. */
  predicate OnlyTags(html: string) {
    html == ""
    || (&& (html[0] == '<' ==> "<b>" <= html || "</b>" <= html || "<i>" <= html || "</i>" <= html)
        && OnlyTags(html[1..]))
  }

  function Occurrences(html: string, tag: string): nat {
    if html == "" then 0
    else (if tag <= html then 1 else 0) + Occurrences(html[1..], tag)
  }

  function Count<T(==)>(s: seq<T>, x: T): nat {
    if s == [] then 0 else (if s[0] == x then 1 else 0) + Count(s[1..], x)
  }

  lemma {:induction false} CountAdd<T>(a: seq<T>, b: seq<T>, x: T)
    ensures Count(a + b, x) == Count(a, x) + Count(b, x)
  {
    if a == [] {
      assert a + b == b;
    } else {
      assert (a + b)[1..] == a[1..] + b;
      CountAdd(a[1..], b, x);
    }
  }

  lemma {:induction false} NoTagInText(a: string, rest: string, tag: string)
    requires '<' !in a && tag != "" && tag[0] == '<'
    ensures Occurrences(a + rest, tag) == Occurrences(rest, tag)
    ensures OnlyTags(rest) ==> OnlyTags(a + rest)
  {
    if a == "" {
      assert a + rest == rest;
    } else {
      assert (a + rest)[0] == a[0] && a[0] in a;
      assert (a + rest)[1..] == a[1..] + rest;
      NoTagInText(a[1..], rest, tag);
    }
  }

  /** The tags in the string are the tags among the glyphs. */
  lemma {:induction false} TagsOfEmit(gs: seq<Glyph>, g: Glyph)
    requires !g.Ch?
    ensures Occurrences(Emit(gs), Written(g)) == Count(gs, g)
    ensures OnlyTags(Emit(gs))
  {
    if gs != [] {
      TagsOfEmit(gs[1..], g);
      var x, rest := gs[0], Emit(gs[1..]);
      var w := Written(x) + rest;
      if x.Ch? {
        NoTagInText(Written(x), rest, Written(g));
      } else {
        var tail := Written(x)[1..];
        assert w[1..] == tail + rest;
        NoTagInText(tail, rest, Written(g));
        assert Written(x) <= w;
        assert w[1] == Written(x)[1] && w[2] == Written(x)[2];
        assert Written(g) <= w <==> g == x;
      }
    }
  }

  /** The pass adds one opening and one closing tag per match, and moves no other tag. */
  lemma {:induction false} TagsOfPass(gs: seq<Glyph>, m: char, tag: Tag, g: Glyph)
    requires !g.Ch?
    ensures Count(Replace(gs, Ch(m), [Open(tag)], [Close(tag)]), g)
            == Count(gs, g) + if g == Open(tag) || g == Close(tag) then |Groups(gs, Ch(m))| else 0
    decreases |gs|
  {
    if gs != [] {
      var o, c, mm := [Open(tag)], [Close(tag)], [Ch(m), Ch(m)];
      match Match(gs, Ch(m))
      case Cut(group, rest) =>
        TagsOfPass(rest, m, tag, g);
        var r := Replace(rest, Ch(m), o, c);
        CountAdd(o + group + c, r, g);
        CountAdd(o + group, c, g);
        CountAdd(o, group, g);
        CountAdd(mm + group + mm, rest, g);
        CountAdd(mm + group, mm, g);
        CountAdd(mm, group, g);
        assert mm[1..] == [Ch(m)] && o[1..] == [] && c[1..] == [] && [Ch(m)][1..] == [];
      case NoCut =>
        TagsOfPass(gs[1..], m, tag, g);
        CountAdd([gs[0]], Replace(gs[1..], Ch(m), o, c), g);
        assert [gs[0]] + gs[1..] == gs;
        CountAdd([gs[0]], gs[1..], g);
    }
  }

  lemma {:induction false} NoTagYet(t: string, g: Glyph)
    requires !g.Ch?
    ensures Count(Chars(t), g) == 0
  {
    if t != "" {
      NoTagYet(t[1..], g);
      assert Chars(t)[1..] == Chars(t[1..]);
    }
  }

  lemma TagCount(t: string, g: Glyph)
    requires !g.Ch?
    ensures Occurrences(RenderMarkup(Some(t)), Written(g))
            == if g == Open(Bold) || g == Close(Bold) then |Groups(Chars(t), Ch('*'))|
               else |Groups(BoldGlyphs(t), Ch('_'))|
    ensures OnlyTags(RenderMarkup(Some(t)))
  {
    hide Written, Groups, Occurrences, OnlyTags, RenderMarkup, Emit;
    RenderIsEmit(t);
    TagsOfEmit(Glyphs(t), g);
    TagsOfPass(BoldGlyphs(t), '_', Italic, g);
    TagsOfPass(Chars(t), '*', Bold, g);
    NoTagYet(t, g);
    match g {
      case Open(tag) => assert tag == Bold || tag == Italic;
      case Close(tag) => assert tag == Bold || tag == Italic;
    }
  }

  /** For every text: author-typed `<` never becomes markup, and the output holds exactly one
      opening and one closing tag per matched pair. */
  lemma TagsBalance(t: string)
    ensures var out, b, i := RenderMarkup(Some(t)), |Groups(Chars(t), Ch('*'))|, |Groups(BoldGlyphs(t), Ch('_'))|;
            && OnlyTags(out)
            && Occurrences(out, "<b>") == Occurrences(out, "</b>") == b
            && Occurrences(out, "<i>") == Occurrences(out, "</i>") == i
  {
    hide RenderMarkup, Groups, Occurrences, OnlyTags, Chars, BoldGlyphs;
    assert Written(Open(Bold)) == "<b>" && Written(Close(Bold)) == "</b>";
    assert Written(Open(Italic)) == "<i>" && Written(Close(Italic)) == "</i>";
    TagCount(t, Open(Bold));
    TagCount(t, Close(Bold));
    TagCount(t, Open(Italic));
    TagCount(t, Close(Italic));
  }

  // ---------- Decoding a message put together from parts ----------

  lemma DecodePlainOne(c: char, rest: string)
    requires c != '<' && c != '&'
    ensures Decode([c] + rest) == [c] + Decode(rest)
  {
    DropPrefix([c], rest);
    assert ([c] + rest)[0] == c;
  }

  lemma {:induction false} DecodePlain(a: string, rest: string)
    requires '<' !in a && '&' !in a
    ensures Decode(a + rest) == a + Decode(rest)
  {
    if a == "" {
      assert a + rest == rest;
    } else {
      var tail := a[1..] + rest;
      DecodePlain(a[1..], rest);
      Uncons(a);
      Associate([a[0]], a[1..], rest);
      DecodePlainOne(a[0], tail);
      Associate([a[0]], a[1..], Decode(rest));
    }
  }

  /** A rendered part of a message is shown as it would be alone. */
  lemma DecodeRenderedThen(t: string, rest: string)
    requires NoJoin(BoldGlyphs(t), ITALIC_MARKER)
    ensures Decode(RenderMarkup(Some(t)) + rest) == WithoutMarkers(t) + Decode(rest)
  {
    RenderIsEmit(t);
    DecodeEmitThen(Glyphs(t), rest);
    BoldSeen(t);
    ItalicSeen(BoldGlyphs(t), ITALIC_MARKER, Italic);
  }
}
