/**
 What a rendered question looks like: for every text, the message that the renderer writes is read
 without a misplaced tag, and shows each character bold or italic exactly if the character stands in
 a group of the bold or of the italic pass.
 */
module MarkupStyles {
  import opened Common
  import opened MarkerPairs
  import opened Markup

  // ---------- Reading a message ----------

  datatype Shown = Shown(c: char, bold: bool, italic: bool)

  function Then(x: Shown, r: Option<seq<Shown>>): Option<seq<Shown>> {
    match r
    case None => None
    case Some(s) => Some([x] + s)
  }

  /** The characters of a message with their entities; nothing where a tag opens an entity that is open,
      closes one that is not, or where the message ends within one. */
  function Read(html: string, bold: bool, italic: bool): Option<seq<Shown>>
    decreases |html|
  {
    if html == "" then if bold || italic then None else Some([])
    else if "<b>" <= html then if bold then None else Read(html[3..], true, italic)
    else if "</b>" <= html then if bold then Read(html[4..], false, italic) else None
    else if "<i>" <= html then if italic then None else Read(html[3..], bold, true)
    else if "</i>" <= html then if italic then Read(html[4..], bold, false) else None
    else if "&amp;" <= html then Then(Shown('&', bold, italic), Read(html[5..], bold, italic))
    else if "&lt;" <= html then Then(Shown('<', bold, italic), Read(html[4..], bold, italic))
    else if "&gt;" <= html then Then(Shown('>', bold, italic), Read(html[4..], bold, italic))
    else Then(Shown(html[0], bold, italic), Read(html[1..], bold, italic))
  }

  // ---------- The groups of the two passes ----------

  /** A character of the text, or, without one, the place of a bold tag. */
  datatype Item = Item(c: Option<char>, bold: bool, italic: bool)

  const PLACE := Item(None, false, false)

  function Letters(text: string, bold: bool): seq<Item> {
    seq(|text|, i requires 0 <= i < |text| => Item(Some(text[i]), bold, false))
  }

  /** The text without the markers of its bold matches: what is in a group is bold. */
  function Bolden(t: string): seq<Item>
    decreases |t|
  {
    if t == "" then []
    else
      match Match(t, BOLD_MARKER)
      case Cut(group, rest) => [PLACE] + Letters(group, true) + [PLACE] + Bolden(rest)
      case NoCut => [Item(Some(t[0]), false, false)] + Bolden(t[1..])
  }

  function KeyOf(x: Item): seq<Option<char>> { [x.c] }

  function Slant(x: Item): seq<Item> { [x.(italic := true)] }

  /** The same for italics, which are looked for after the bold tags are in their places. */
  function Italicize(s: seq<Item>): seq<Item>
    decreases |s|
  {
    if s == [] then []
    else
      match Match(FlatMap(KeyOf, s), Some(ITALIC_MARKER))
      case Cut(group, rest) =>
        KeysSize(s);
        FlatMap(Slant, s[2..2 + |group|]) + Italicize(s[|s| - |rest|..])
      case NoCut => [s[0]] + Italicize(s[1..])
  }

  function ShowItem(x: Item): seq<Shown> {
    if x.c.Some? then [Shown(x.c.value, x.bold, x.italic)] else []
  }

  /** The text as its groups say. */
  function Styled(t: string): seq<Shown> {
    FlatMap(ShowItem, Italicize(Bolden(t)))
  }

  lemma {:induction false} KeysSize(s: seq<Item>)
    ensures |FlatMap(KeyOf, s)| == |s|
  {
    if s != [] { KeysSize(s[1..]); }
  }

  // ---------- Reading glyphs ----------

  function ReadGlyphs(gs: seq<Glyph>, bold: bool, italic: bool): Option<seq<Shown>>
    decreases |gs|
  {
    if gs == [] then if bold || italic then None else Some([])
    else
      match gs[0]
      case Ch(c) => Then(Shown(c, bold, italic), ReadGlyphs(gs[1..], bold, italic))
      case Open(Bold) => if bold then None else ReadGlyphs(gs[1..], true, italic)
      case Close(Bold) => if bold then ReadGlyphs(gs[1..], false, italic) else None
      case Open(Italic) => if italic then None else ReadGlyphs(gs[1..], bold, true)
      case Close(Italic) => if italic then ReadGlyphs(gs[1..], bold, false) else None
  }

  lemma ReadTag(tag: Tag, opens: bool, rest: string, bold: bool, italic: bool)
    ensures var w := (if opens then OpenTag(tag) else CloseTag(tag)) + rest;
            Read(w, bold, italic) ==
            match tag
            case Bold => if bold == opens then None else Read(rest, opens, italic)
            case Italic => if italic == opens then None else Read(rest, bold, opens)
  {
    var a := if opens then OpenTag(tag) else CloseTag(tag);
    var w := a + rest;
    DropPrefix(a, rest);
    assert a <= w && w[0] == '<' && w[1] == a[1] && w[2] == a[2];
  }

  lemma ReadChar(c: char, rest: string, bold: bool, italic: bool)
    ensures Read(EscapeChar(c) + rest, bold, italic) == Then(Shown(c, bold, italic), Read(rest, bold, italic))
  {
    var a := EscapeChar(c);
    var w := a + rest;
    DropPrefix(a, rest);
    assert a <= w && w[0] == a[0];
    if |a| > 1 { assert w[1] == a[1]; }
  }

  lemma {:induction false} ReadEmit(gs: seq<Glyph>, bold: bool, italic: bool)
    ensures Read(Emit(gs), bold, italic) == ReadGlyphs(gs, bold, italic)
    decreases |gs|
  {
    hide Read, EscapeChar, OpenTag, CloseTag;
    if gs != [] {
      var rest := Emit(gs[1..]);
      match gs[0] {
        case Ch(c) => ReadChar(c, rest, bold, italic);
        case Open(tag) => ReadTag(tag, true, rest, bold, italic);
        case Close(tag) => ReadTag(tag, false, rest, bold, italic);
      }
      forall b, i ensures Read(rest, b, i) == ReadGlyphs(gs[1..], b, i) { ReadEmit(gs[1..], b, i); }
    } else {
      ReadNothing(bold, italic);
    }
  }

  lemma ReadNothing(bold: bool, italic: bool)
    ensures Read("", bold, italic) == if bold || italic then None else Some([])
  {
  }

  // ---------- Glyphs with bold tags as items ----------

  function Toggled(g: Glyph, bold: bool): bool {
    if g == Open(Bold) then true else if g == Close(Bold) then false else bold
  }

  function After(gs: seq<Glyph>, bold: bool): bool
    decreases |gs|
  {
    if gs == [] then bold
    else After(gs[1..], Toggled(gs[0], bold))
  }

  /** No italic tags, and each bold tag opens what is closed or closes what is open. */
  predicate Proper(gs: seq<Glyph>, bold: bool)
    decreases |gs|
  {
    gs == []
    || match gs[0]
       case Ch(_) => Proper(gs[1..], bold)
       case Open(tag) => tag == Bold && !bold && Proper(gs[1..], true)
       case Close(tag) => tag == Bold && bold && Proper(gs[1..], false)
  }

  function ItemOf(g: Glyph, bold: bool): Item {
    if g.Ch? then Item(Some(g.c), bold, false) else PLACE
  }

  function Items(gs: seq<Glyph>, bold: bool): (s: seq<Item>)
    ensures |s| == |gs|
    decreases |gs|
  {
    if gs == [] then [] else [ItemOf(gs[0], bold)] + Items(gs[1..], Toggled(gs[0], bold))
  }

  lemma {:induction false} SplitAfter(a: seq<Glyph>, b: seq<Glyph>, bold: bool)
    ensures After(a + b, bold) == After(b, After(a, bold))
    ensures Proper(a + b, bold) <==> Proper(a, bold) && Proper(b, After(a, bold))
    decreases |a|
  {
    if a == [] {
      assert a + b == b;
    } else {
      assert (a + b)[0] == a[0] && (a + b)[1..] == a[1..] + b;
      SplitAfter(a[1..], b, Toggled(a[0], bold));
    }
  }

  lemma {:induction false} SplitItems(a: seq<Glyph>, b: seq<Glyph>, bold: bool)
    ensures Items(a + b, bold) == Items(a, bold) + Items(b, After(a, bold))
    decreases |a|
  {
    hide ItemOf;
    if a == [] {
      assert a + b == b;
    } else {
      assert (a + b)[0] == a[0] && (a + b)[1..] == a[1..] + b;
      SplitItems(a[1..], b, Toggled(a[0], bold));
    }
  }

  lemma SplitAt(a: seq<Glyph>, b: seq<Glyph>, bold: bool)
    ensures After(a + b, bold) == After(b, After(a, bold))
    ensures Proper(a + b, bold) <==> Proper(a, bold) && Proper(b, After(a, bold))
    ensures Items(a + b, bold) == Items(a, bold) + Items(b, After(a, bold))
  {
    SplitAfter(a, b, bold);
    SplitItems(a, b, bold);
  }

  lemma {:induction false} CharsAsItems(text: string, bold: bool)
    ensures After(Chars(text), bold) == bold && Proper(Chars(text), bold)
    ensures Items(Chars(text), bold) == Letters(text, bold)
  {
    if text != "" {
      CharsAsItems(text[1..], bold);
      assert Chars(text) == [Ch(text[0])] + Chars(text[1..]);
      assert Chars(text)[1..] == Chars(text[1..]);
      assert Letters(text, bold) == [Item(Some(text[0]), bold, false)] + Letters(text[1..], bold);
    }
  }

  lemma OneTag(g: Glyph, gs: seq<Glyph>, bold: bool)
    requires g == Open(Bold) || g == Close(Bold)
    ensures After([g] + gs, bold) == After(gs, g == Open(Bold))
    ensures Items([g] + gs, bold) == [PLACE] + Items(gs, g == Open(Bold))
    ensures Proper([g] + gs, bold) <==> bold == (g == Close(Bold)) && Proper(gs, g == Open(Bold))
  {
    assert ([g] + gs)[1..] == gs;
  }

  /** The bold pass over the glyphs of a text gives the items of its groups. */
  lemma {:induction false} BoldPass(t: string)
    ensures var gs := BoldGlyphs(t); Proper(gs, false) && !After(gs, false) && Items(gs, false) == Bolden(t)
    decreases |t|
  {
    var m, o, c := Ch(BOLD_MARKER), [Open(Bold)], [Close(Bold)];
    if t != "" {
      MatchFlatMap(Char, t, BOLD_MARKER, m);
      match Match(t, BOLD_MARKER)
      case Cut(group, rest) =>
        BoldPass(rest);
        var r := BoldGlyphs(rest);
        assert Chars(t) != [];
        BoldenGroup(group, r);
      case NoCut =>
        BoldPass(t[1..]);
        var r := BoldGlyphs(t[1..]);
        assert Chars(t) == [Ch(t[0])] + Chars(t[1..]);
        assert Chars(t)[1..] == Chars(t[1..]);
        assert ([Ch(t[0])] + r)[1..] == r;
    }
  }

  lemma BoldenGroup(group: string, r: seq<Glyph>)
    requires Proper(r, false) && !After(r, false)
    ensures var gs := [Open(Bold)] + Chars(group) + [Close(Bold)] + r;
            Proper(gs, false) && !After(gs, false)
            && Items(gs, false) == [PLACE] + Letters(group, true) + [PLACE] + Items(r, false)
  {
    var tail := [Close(Bold)] + r;
    var gs := [Open(Bold)] + (Chars(group) + tail);
    assert [Open(Bold)] + Chars(group) + [Close(Bold)] + r == gs;
    OneTag(Open(Bold), Chars(group) + tail, false);
    SplitAt(Chars(group), tail, true);
    CharsAsItems(group, true);
    OneTag(Close(Bold), r, true);
  }

  // ---------- The italic pass ----------

  function KeyOfGlyph(g: Glyph): seq<Option<char>> { [if g.Ch? then Some(g.c) else None] }

  lemma {:induction false} KeysOfItems(gs: seq<Glyph>, bold: bool)
    ensures FlatMap(KeyOf, Items(gs, bold)) == FlatMap(KeyOfGlyph, gs)
    decreases |gs|
  {
    if gs != [] {
      KeysOfItems(gs[1..], Toggled(gs[0], bold));
      FlatMapCons(KeyOf, ItemOf(gs[0], bold), Items(gs[1..], Toggled(gs[0], bold)));
    }
  }

  lemma {:induction false} SameLength(gs: seq<Glyph>)
    ensures |FlatMap(KeyOfGlyph, gs)| == |gs|
  {
    if gs != [] { SameLength(gs[1..]); }
  }

  /** What is read of some items, all within italics or none. */
  function ShownOf(s: seq<Item>, italic: bool): seq<Shown> {
    FlatMap(ShowItem, if italic then FlatMap(Slant, s) else s)
  }

  function Before(s: seq<Shown>, r: Option<seq<Shown>>): Option<seq<Shown>> {
    match r
    case None => None
    case Some(rest) => Some(s + rest)
  }

  lemma ShownOne(x: Item, s: seq<Item>, italic: bool)
    ensures ShownOf([x] + s, italic)
            == (if x.c.Some? then [Shown(x.c.value, x.bold, italic || x.italic)] else []) + ShownOf(s, italic)
  {
    if italic {
      FlatMapCons(Slant, x, s);
      FlatMapCons(ShowItem, x.(italic := true), FlatMap(Slant, s));
    } else {
      FlatMapCons(ShowItem, x, s);
    }
  }

  lemma ThenBefore(x: Shown, s: seq<Shown>, r: Option<seq<Shown>>)
    ensures Then(x, Before(s, r)) == Before([x] + s, r) && Before([], r) == r
  {
    if r.Some? {
      Associate([x], s, r.value);
      assert [] + r.value == r.value;
    }
  }

  /** Reading on, through glyphs without italic tags. */
  lemma {:induction false} ReadThrough(a: seq<Glyph>, b: seq<Glyph>, bold: bool, italic: bool)
    requires Proper(a, bold)
    ensures ReadGlyphs(a + b, bold, italic)
            == Before(ShownOf(Items(a, bold), italic), ReadGlyphs(b, After(a, bold), italic))
    decreases |a|
  {
    var end := ReadGlyphs(b, After(a, bold), italic);
    if a == [] {
      assert a + b == b;
      ThenBefore(Shown(' ', bold, italic), [], end);
      assert ShownOf([], italic) == [];
    } else {
      var next := Toggled(a[0], bold);
      var s := ShownOf(Items(a[1..], next), italic);
      assert (a + b)[0] == a[0] && (a + b)[1..] == a[1..] + b;
      ReadThrough(a[1..], b, next, italic);
      ShownOne(ItemOf(a[0], bold), Items(a[1..], next), italic);
      hide ShownOf, Items;
      ThenBefore(Shown(if a[0].Ch? then a[0].c else ' ', bold, italic), s, end);
      assert [] + s == s;
    }
  }

  lemma ItalicizeMatch(s: seq<Item>, g: seq<Item>, rest: seq<Item>, x: seq<Option<char>>, y: seq<Option<char>>)
    requires s != [] && Match(FlatMap(KeyOf, s), Some(ITALIC_MARKER)) == Cut(x, y)
    requires |s| == 4 + |g| + |rest| && |x| == |g| && |y| == |rest|
    requires s[2..2 + |g|] == g && s[|s| - |rest|..] == rest
    ensures Italicize(s) == FlatMap(Slant, g) + Italicize(rest)
  {
  }

  function Italics(gs: seq<Glyph>): seq<Glyph> {
    Replace(gs, Ch(ITALIC_MARKER), [Open(Italic)], [Close(Italic)])
  }

  lemma ReadItalicGroup(group: seq<Glyph>, r: seq<Glyph>, bold: bool)
    requires Proper(group, bold)
    ensures ReadGlyphs([Open(Italic)] + group + [Close(Italic)] + r, bold, false)
            == Before(ShownOf(Items(group, bold), true), ReadGlyphs(r, After(group, bold), false))
  {
    var tail := [Close(Italic)] + r;
    assert [Open(Italic)] + group + [Close(Italic)] + r == [Open(Italic)] + (group + tail);
    assert ([Open(Italic)] + (group + tail))[1..] == group + tail && tail[1..] == r;
    ReadThrough(group, tail, bold, true);
  }

  /** What a match is made of, as items. */
  lemma MatchedItems(group: seq<Glyph>, rest: seq<Glyph>, bold: bool)
    ensures var m := Ch(ITALIC_MARKER);
            var gs, b := [m, m] + (group + ([m, m] + rest)), After(group, bold);
            var x, y := Item(Some(ITALIC_MARKER), bold, false), Item(Some(ITALIC_MARKER), b, false);
            && After(gs, bold) == After(rest, b) && (Proper(gs, bold) <==> Proper(group, bold) && Proper(rest, b))
            && Items(gs, bold) == [x, x] + (Items(group, bold) + ([y, y] + Items(rest, b)))
  {
    hide After, Proper, Items;
    var mm := [Ch(ITALIC_MARKER), Ch(ITALIC_MARKER)];
    TwoMarkers(group + (mm + rest), bold);
    SplitAt(group, mm + rest, bold);
    TwoMarkers(rest, After(group, bold));
  }

  /** The pass over the items finds the match where the pass over the glyphs does. */
  lemma MatchKeys(gs: seq<Glyph>, group: seq<Glyph>, rest: seq<Glyph>, bold: bool)
    requires Match(gs, Ch(ITALIC_MARKER)) == Cut(group, rest)
    ensures Match(FlatMap(KeyOf, Items(gs, bold)), Some(ITALIC_MARKER))
            == Cut(FlatMap(KeyOfGlyph, group), FlatMap(KeyOfGlyph, rest))
    ensures |FlatMap(KeyOfGlyph, group)| == |group| && |FlatMap(KeyOfGlyph, rest)| == |rest|
  {
    hide Match, FlatMap, Items;
    KeysOfItems(gs, bold);
    MatchFlatMap(KeyOfGlyph, gs, Ch(ITALIC_MARKER), Some(ITALIC_MARKER));
    SameLength(group);
    SameLength(rest);
  }

  lemma Regroup<T>(a: seq<T>, g: seq<T>, b: seq<T>, r: seq<T>)
    ensures a + g + b + r == a + (g + (b + r))
  {
  }

  lemma MatchItems(gs: seq<Glyph>, group: seq<Glyph>, rest: seq<Glyph>, bold: bool)
    requires gs != [] && Match(gs, Ch(ITALIC_MARKER)) == Cut(group, rest)
    requires Proper(gs, bold)
    ensures Proper(group, bold) && Proper(rest, After(group, bold))
    ensures After(gs, bold) == After(rest, After(group, bold))
    ensures Italicize(Items(gs, bold))
            == FlatMap(Slant, Items(group, bold)) + Italicize(Items(rest, After(group, bold)))
  {
    hide After, Proper, Items, Italicize, FlatMap, Match;
    var mm := [Ch(ITALIC_MARKER), Ch(ITALIC_MARKER)];
    Regroup(mm, group, mm, rest);
    MatchedItems(group, rest, bold);
    MatchKeys(gs, group, rest, bold);
    var s, g, r := Items(gs, bold), Items(group, bold), Items(rest, After(group, bold));
    var x, y := Item(Some(ITALIC_MARKER), bold, false), Item(Some(ITALIC_MARKER), After(group, bold), false);
    Slices([x, x], g, [y, y], r);
    ItalicizeMatch(s, g, r, FlatMap(KeyOfGlyph, group), FlatMap(KeyOfGlyph, rest));
  }

  lemma Slices<T>(a: seq<T>, g: seq<T>, b: seq<T>, r: seq<T>)
    requires |a| == |b| == 2
    ensures var s := a + (g + (b + r)); s[2..2 + |g|] == g && s[|s| - |r|..] == r
  {
  }

  lemma TwoMarkers(gs: seq<Glyph>, bold: bool)
    ensures var m, x := Ch(ITALIC_MARKER), Item(Some(ITALIC_MARKER), bold, false);
            && After([m, m] + gs, bold) == After(gs, bold) && (Proper([m, m] + gs, bold) <==> Proper(gs, bold))
            && Items([m, m] + gs, bold) == [x, x] + Items(gs, bold)
  {
    var m := Ch(ITALIC_MARKER);
    assert ([m, m] + gs)[1..] == [m] + gs && ([m] + gs)[1..] == gs;
  }

  /** The italic pass and the reader agree: the groups are read as italic, all else is not. */
  lemma {:induction false} ItalicPass(gs: seq<Glyph>, bold: bool)
    requires Proper(gs, bold) && !After(gs, bold)
    ensures ReadGlyphs(Italics(gs), bold, false) == Some(FlatMap(ShowItem, Italicize(Items(gs, bold))))
    decreases |gs|
  {
    if gs != [] {
      match Match(gs, Ch(ITALIC_MARKER))
      case Cut(group, rest) =>
        MatchItems(gs, group, rest, bold);
        ItalicPass(rest, After(group, bold));
        ReadItalicGroup(group, Italics(rest), bold);
        FlatMapAppend(ShowItem, FlatMap(Slant, Items(group, bold)), Italicize(Items(rest, After(group, bold))));
      case NoCut =>
        ItalicPass(gs[1..], Toggled(gs[0], bold));
        NoMatchItems(gs, bold);
        ReadThrough([gs[0]], Italics(gs[1..]), bold, false);
        FlatMapCons(ShowItem, ItemOf(gs[0], bold), Italicize(Items(gs[1..], Toggled(gs[0], bold))));
    }
  }

  lemma NoMatchItems(gs: seq<Glyph>, bold: bool)
    requires gs != [] && Match(gs, Ch(ITALIC_MARKER)).NoCut?
    ensures Italicize(Items(gs, bold)) == [ItemOf(gs[0], bold)] + Italicize(Items(gs[1..], Toggled(gs[0], bold)))
  {
    KeysOfItems(gs, bold);
    MatchFlatMap(KeyOfGlyph, gs, Ch(ITALIC_MARKER), Some(ITALIC_MARKER));
  }

  /** For every text: the message has no misplaced tag, and a character in it is bold or italic exactly
      if it stands in a group of that pass. */
  lemma StylesAsGrouped(t: string)
    ensures Read(RenderMarkup(Some(t)), false, false) == Some(Styled(t))
  {
    RenderIsEmit(t);
    ReadEmit(Glyphs(t), false, false);
    BoldPass(t);
    ItalicPass(BoldGlyphs(t), false);
  }

  // ---------- What the groups are ----------

  function Same<T>(s: seq<T>): seq<T> { s }

  function Joined<T>(parts: seq<seq<T>>): seq<T> { FlatMap(Same, parts) }

  function BoldKey(x: Item): seq<char> { if x.bold && x.c.Some? then [x.c.value] else [] }

  function ItalicKey(x: Item): seq<Option<char>> { if x.italic then [x.c] else [] }

  lemma {:induction false} LettersBold(text: string)
    ensures FlatMap(BoldKey, Letters(text, true)) == text
  {
    if text != "" {
      LettersBold(text[1..]);
      assert Letters(text, true) == [Item(Some(text[0]), true, false)] + Letters(text[1..], true);
      FlatMapCons(BoldKey, Item(Some(text[0]), true, false), Letters(text[1..], true));
    }
  }

  /** The bold characters, in order, are the groups of the bold pass. */
  lemma {:induction false} BoldIsGroups(t: string)
    ensures FlatMap(BoldKey, Bolden(t)) == Joined(Groups(t, BOLD_MARKER))
    decreases |t|
  {
    if t != "" {
      match Match(t, BOLD_MARKER)
      case Cut(group, rest) =>
        BoldIsGroups(rest);
        LettersBold(group);
        FlatMapAppend(BoldKey, [PLACE] + Letters(group, true) + [PLACE], Bolden(rest));
        FlatMapAppend(BoldKey, [PLACE] + Letters(group, true), [PLACE]);
        FlatMapAppend(BoldKey, [PLACE], Letters(group, true));
        FlatMapOne(BoldKey, PLACE);
        FlatMapCons(Same, group, Groups(rest, BOLD_MARKER));
      case NoCut =>
        BoldIsGroups(t[1..]);
        FlatMapCons(BoldKey, Item(Some(t[0]), false, false), Bolden(t[1..]));
    }
  }

  lemma {:induction false} SlantedKeys(s: seq<Item>)
    ensures FlatMap(ItalicKey, FlatMap(Slant, s)) == FlatMap(KeyOf, s)
  {
    if s != [] {
      SlantedKeys(s[1..]);
      FlatMapCons(ItalicKey, s[0].(italic := true), FlatMap(Slant, s[1..]));
    }
  }

  lemma {:induction false} KeysSlice(s: seq<Item>, lo: nat, hi: nat)
    requires lo <= hi <= |s|
    ensures |FlatMap(KeyOf, s)| == |s| && FlatMap(KeyOf, s[lo..hi]) == FlatMap(KeyOf, s)[lo..hi]
  {
    KeysSize(s);
    KeysSize(s[..lo]);
    KeysSize(s[lo..hi]);
    assert s == s[..lo] + s[lo..hi] + s[hi..];
    FlatMapAppend(KeyOf, s[..lo] + s[lo..hi], s[hi..]);
    FlatMapAppend(KeyOf, s[..lo], s[lo..hi]);
  }

  lemma GroupKeys(s: seq<Item>, group: seq<Option<char>>, rest: seq<Option<char>>)
    requires Match(FlatMap(KeyOf, s), Some(ITALIC_MARKER)) == Cut(group, rest)
    ensures |s| == 4 + |group| + |rest|
    ensures FlatMap(KeyOf, s[2..2 + |group|]) == group && FlatMap(KeyOf, s[|s| - |rest|..]) == rest
  {
    hide FlatMap, Match;
    var m := Some(ITALIC_MARKER);
    KeysSize(s);
    var keys, k := FlatMap(KeyOf, s), |s| - |rest|;
    KeysSlice(s, 2, 2 + |group|);
    KeysSlice(s, k, |s|);
    Regroup([m, m], group, [m, m], rest);
    Slices([m, m], group, [m, m], rest);
    ToTheEnd(s, k);
    ToTheEnd(keys, k);
  }

  lemma ToTheEnd<T>(s: seq<T>, k: nat)
    requires k <= |s|
    ensures s[k..|s|] == s[k..]
  {
  }

  lemma NotItalic(s: seq<Item>, k: nat)
    requires k <= |s| && forall x :: x in s ==> !x.italic
    ensures forall x :: x in s[k..] ==> !x.italic
  {
  }

  /** What is italic, in order, are the groups of the italic pass, which runs over the characters and the
      places of the bold tags. */
  lemma {:induction false} ItalicIsGroups(s: seq<Item>)
    requires forall x :: x in s ==> !x.italic
    ensures FlatMap(ItalicKey, Italicize(s)) == Joined(Groups(FlatMap(KeyOf, s), Some(ITALIC_MARKER)))
    decreases |s|
  {
    hide Match;
    if s != [] {
      match Match(FlatMap(KeyOf, s), Some(ITALIC_MARKER))
      case Cut(group, rest) =>
        GroupKeys(s, group, rest);
        var g, r := s[2..2 + |group|], s[|s| - |rest|..];
        NotItalic(s, |s| - |rest|);
        ItalicIsGroups(r);
        SlantedKeys(g);
        FlatMapAppend(ItalicKey, FlatMap(Slant, g), Italicize(r));
        FlatMapCons(Same, group, Groups(rest, Some(ITALIC_MARKER)));
      case NoCut =>
        NotItalic(s, 1);
        ItalicIsGroups(s[1..]);
        FlatMapCons(ItalicKey, s[0], Italicize(s[1..]));
        Uncons(s);
        FlatMapCons(KeyOf, s[0], s[1..]);
        DropPrefix(KeyOf(s[0]), FlatMap(KeyOf, s[1..]));
    }
  }
}
