/**
 Plain text to HTML: blank lines split blocks, lines starting with "- " make a list, a
 short line ending with ":" is a heading, anything else is a paragraph.

 The output is judged by a reader that knows nothing of how it was made: a lexer for the
 few tags that may occur, and a stack machine that insists on their nesting and collects
 the text a browser would show, line by line.
 */
module Prose {
  import opened Text
  import opened Escaping

  // ---------------------------------------------------------------- the renderer

  function RemoveCR(s: string): string {
    if s == "" then "" else (if s[0] == '\r' then "" else [s[0]]) + RemoveCR(s[1..])
  }

  function DropNewlines(s: string): (r: string)
    ensures |r| <= |s| && (s != "" && s[0] == '\n' ==> |r| < |s|)
    ensures r != "" ==> r[0] != '\n'
  {
    if s != "" && s[0] == '\n' then DropNewlines(s[1..]) else s
  }

  predicate Gap(s: string) {
    |s| >= 2 && s[0] == '\n' && s[1] == '\n'
  }

  /** Splits `s` at every maximal run of two or more newlines; `block` is what precedes `s`. */
  function SplitFrom(block: string, s: string): (r: seq<string>)
    ensures |r| > 0
    decreases |s|
  {
    if s == "" then [block]
    else if Gap(s) then [block] + SplitFrom("", DropNewlines(s))
    else SplitFrom(block + [s[0]], s[1..])
  }

  /** The text cut at every run of two or more newlines. */
  function SplitBlocks(s: string): (r: seq<string>)
    ensures |r| > 0
  {
    SplitFrom("", s)
  }

  function NonBlank(lines: seq<string>): seq<string> {
    if lines == [] then [] else (if Trim(lines[0]) == "" then [] else [lines[0]]) + NonBlank(lines[1..])
  }

  function BlockLines(block: string): seq<string> {
    NonBlank(Split(block, '\n'))
  }

  /** What is left of a list line without its dash and the white space around it, when it is one. */
  function Bullet(line: string): Option<string> {
    var t := TrimStart(line);
    if |t| >= 2 && t[0] == '-' && IsSpace(t[1]) then Some(TrimStart(t[1..])) else None
  }

  /** The length JavaScript reports: a character beyond the basic plane takes two units. */
  function Utf16Length(s: string): nat {
    if s == "" then 0 else (if s[0] as int >= 0x1_0000 then 2 else 1) + Utf16Length(s[1..])
  }

  predicate HasColon(line: string) {
    EndsWith(Trim(line), ":")
  }

  function WithoutColon(line: string): string
    requires HasColon(line)
  {
    Trim(line)[..|Trim(line)| - 1]
  }

  predicate IsList(lines: seq<string>) {
    forall i :: 0 <= i < |lines| ==> Bullet(lines[i]).Some?
  }

  predicate IsHeading(lines: seq<string>) {
    |lines| == 1 && HasColon(lines[0]) && Utf16Length(lines[0]) < 80
  }

  function Items(lines: seq<string>): string
    requires IsList(lines)
  {
    if lines == [] then "" else "<li>" + Esc(Bullet(lines[0]).value) + "</li>" + Items(lines[1..])
  }

  function EscAll(lines: seq<string>): seq<string> {
    if lines == [] then [] else [Esc(lines[0])] + EscAll(lines[1..])
  }

  function RenderLines(lines: seq<string>): string {
    if lines == [] then ""
    else if IsList(lines) then "<ul>" + Items(lines) + "</ul>"
    else if IsHeading(lines) then "<h3>" + Esc(WithoutColon(lines[0])) + "</h3>"
    else "<p>" + Join(EscAll(lines), "<br>") + "</p>"
  }

  function RenderBlocks(blocks: seq<string>): (r: seq<string>)
    ensures |r| == |blocks|
  {
    if blocks == [] then [] else [RenderLines(BlockLines(blocks[0]))] + RenderBlocks(blocks[1..])
  }

  function Render(text: string): string {
    Join(RenderBlocks(SplitBlocks(RemoveCR(text))), "\n")
  }

  // ---------------------------------------------------------------- the reader

  datatype Tag = UL | LI | H3 | P
  datatype Token = Open(tag: Tag) | Close(tag: Tag) | Break | Chr(c: char)

  /** How a token is written. */
  function Spell(t: Token): string {
    match t
    case Open(UL) => "<ul>"
    case Open(LI) => "<li>"
    case Open(H3) => "<h3>"
    case Open(P) => "<p>"
    case Close(UL) => "</ul>"
    case Close(LI) => "</li>"
    case Close(H3) => "</h3>"
    case Close(P) => "</p>"
    case Break => "<br>"
    case Chr(c) => EncodeChar(5, c)
  }

  /** The token a string starts with: one of the tags, an entity, or a character that needs no escape. */
  function LexOne(s: string): (r: Option<Token>)
    requires s != ""
    ensures r.Some? ==> StartsWith(s, Spell(r.value)) && Spell(r.value) != ""
  {
    if s[0] == '<' then
      if StartsWith(s, "<ul>") then Some(Open(UL))
      else if StartsWith(s, "<li>") then Some(Open(LI))
      else if StartsWith(s, "<h3>") then Some(Open(H3))
      else if StartsWith(s, "<p>") then Some(Open(P))
      else if StartsWith(s, "</ul>") then Some(Close(UL))
      else if StartsWith(s, "</li>") then Some(Close(LI))
      else if StartsWith(s, "</h3>") then Some(Close(H3))
      else if StartsWith(s, "</p>") then Some(Close(P))
      else if StartsWith(s, "<br>") then Some(Break)
      else None
    else if s[0] == '&' then
      if EntityAt(s) < 5 then Some(Chr(ENTITIES[EntityAt(s)].0)) else None
    else if Raw(s[0]) then None
    else Some(Chr(s[0]))
  }

  function Lex(s: string): Option<seq<Token>>
    decreases |s|
  {
    if s == "" then Some([])
    else
      var t := LexOne(s);
      if t.None? then None
      else
        var rest := Lex(s[|Spell(t.value)|..]);
        if rest.None? then None else Some([t.value] + rest.value)
  }

  datatype Kind = Item | Heading | Plain
  datatype Shown = Shown(kind: Kind, text: string)

  /** The open elements, innermost on top. */
  datatype Stack = Empty | Push(tag: Tag, below: Stack)

  /** The open elements; the lines shown so far; the text of the line being read. */
  datatype Reader = Reader(stack: Stack, lines: seq<Shown>, text: string)

  predicate InLeaf(r: Reader) {
    r.stack.Push? && r.stack.tag != UL
  }

  function Emit(r: Reader, kind: Kind): Reader {
    r.(lines := r.lines + [Shown(kind, r.text)], text := "")
  }

  function KindOf(tag: Tag): Kind {
    match tag case LI => Item case H3 => Heading case _ => Plain
  }

  /** One token; None where a tag or a text may not stand. */
  function Read(r: Reader, t: Token): Option<Reader> {
    match t
    case Open(tag) =>
      if r.stack == (if tag == LI then Push(UL, Empty) else Empty) then Some(r.(stack := Push(tag, r.stack))) else None
    case Close(tag) =>
      if r.stack.Empty? || r.stack.tag != tag then None
      else
        var shown := if tag == UL then r else Emit(r, KindOf(tag));
        Some(shown.(stack := r.stack.below))
    case Break => if r.stack == Push(P, Empty) then Some(Emit(r, Plain)) else None
    case Chr(c) =>
      if c == '\n' then (if r.stack.Empty? then Some(r) else None)
      else if InLeaf(r) then Some(r.(text := r.text + [c]))
      else None
  }

  function ReadAll(r: Reader, tokens: seq<Token>): Option<Reader>
    decreases |tokens|
  {
    if tokens == [] then Some(r)
    else
      var next := Read(r, tokens[0]);
      if next.None? then None else ReadAll(next.value, tokens[1..])
  }

  /** What a page shows, line by line; None when it is not well formed. */
  function ShownBy(html: string): Option<seq<Shown>> {
    var tokens := Lex(html);
    if tokens.None? then None
    else
      var r := ReadAll(Reader(Empty, [], ""), tokens.value);
      if r.None? || r.value.stack.Push? || r.value.text != "" then None else Some(r.value.lines)
  }

  // ---------------------------------------------------------------- the lexer reads what is spelt

  function SpellAll(tokens: seq<Token>): string {
    if tokens == [] then "" else Spell(tokens[0]) + SpellAll(tokens[1..])
  }

  lemma LexSpeltChar(c: char, rest: string)
    ensures EncodeChar(5, c) != "" && LexOne(EncodeChar(5, c) + rest) == Some(Chr(c))
  {
    EntityAtFront(c, rest);
    assert (EncodeChar(5, c) + rest)[0] == EncodeChar(5, c)[0];
  }

  lemma LexSpeltOpen(tag: Tag, rest: string)
    ensures LexOne(Spell(Open(tag)) + rest) == Some(Open(tag))
  {
    var s := Spell(Open(tag)) + rest;
    assert s[0] == '<' && s[1] == Spell(Open(tag))[1];
    assert StartsWith(s, Spell(Open(tag)));
  }

  lemma LexSpeltClose(tag: Tag, rest: string)
    ensures LexOne(Spell(Close(tag)) + rest) == Some(Close(tag))
  {
    var s := Spell(Close(tag)) + rest;
    assert s[0] == '<' && s[1] == '/' && s[2] == Spell(Close(tag))[2];
    assert StartsWith(s, Spell(Close(tag)));
  }

  lemma LexSpelt(t: Token, rest: string)
    ensures Spell(t) != "" && LexOne(Spell(t) + rest) == Some(t)
  {
    match t
    case Open(tag) => LexSpeltOpen(tag, rest);
    case Close(tag) => LexSpeltClose(tag, rest);
    case Chr(c) => LexSpeltChar(c, rest);
    case Break =>
      var s := "<br>" + rest;
      assert s[0] == '<' && s[1] == 'b' && StartsWith(s, "<br>");
  }

  lemma {:induction false} LexSpelling(tokens: seq<Token>)
    ensures Lex(SpellAll(tokens)) == Some(tokens)
  {
    if tokens != [] {
      LexSpelt(tokens[0], SpellAll(tokens[1..]));
      LexSpelling(tokens[1..]);
      hide LexOne, Spell;
      assert SpellAll(tokens)[|Spell(tokens[0])|..] == SpellAll(tokens[1..]);
      assert tokens == [tokens[0]] + tokens[1..];
    }
  }

  lemma {:induction false} SpellConcat(a: seq<Token>, b: seq<Token>)
    ensures SpellAll(a + b) == SpellAll(a) + SpellAll(b)
  {
    hide Spell;
    if a == [] {
      assert a + b == b;
    } else {
      SpellConcat(a[1..], b);
      assert (a + b)[1..] == a[1..] + b;
      Assoc(Spell(a[0]), SpellAll(a[1..]), SpellAll(b));
    }
  }

  lemma {:induction false} ReadConcat(r: Reader, a: seq<Token>, b: seq<Token>)
    ensures ReadAll(r, a + b) == if ReadAll(r, a).None? then None else ReadAll(ReadAll(r, a).value, b)
    decreases |a|
  {
    if a == [] {
      assert a + b == b;
    } else {
      assert (a + b)[1..] == a[1..] + b;
      if Read(r, a[0]).Some? { ReadConcat(Read(r, a[0]).value, a[1..], b); }
    }
  }

  function Chars(s: string): seq<Token> {
    if s == "" then [] else [Chr(s[0])] + Chars(s[1..])
  }

  lemma {:induction false} SpellChars(s: string)
    ensures SpellAll(Chars(s)) == Esc(s)
  {
    EscIsOnePass(s);
    if s != "" {
      SpellChars(s[1..]);
      EscIsOnePass(s[1..]);
    }
  }

  lemma {:induction false} ReadChars(r: Reader, s: string)
    requires InLeaf(r) && '\n' !in s
    ensures ReadAll(r, Chars(s)) == Some(r.(text := r.text + s))
    decreases |s|
  {
    if s == "" {
      assert r.text + s == r.text;
    } else {
      ReadChars(r.(text := r.text + [s[0]]), s[1..]);
      assert (r.text + [s[0]]) + s[1..] == r.text + s;
    }
  }

  // ---------------------------------------------------------------- what the renderer writes

  function ItemTokens(lines: seq<string>): seq<Token>
    requires IsList(lines)
  {
    if lines == [] then [] else [Open(LI)] + (Chars(Bullet(lines[0]).value) + [Close(LI)]) + ItemTokens(lines[1..])
  }

  function BrokenLines(lines: seq<string>): seq<Token> {
    if lines == [] then [] else if |lines| == 1 then Chars(lines[0])
    else Chars(lines[0]) + [Break] + BrokenLines(lines[1..])
  }

  function LineTokens(lines: seq<string>): seq<Token> {
    if lines == [] then []
    else if IsList(lines) then [Open(UL)] + ItemTokens(lines) + [Close(UL)]
    else if IsHeading(lines) then [Open(H3)] + Chars(WithoutColon(lines[0])) + [Close(H3)]
    else [Open(P)] + BrokenLines(lines) + [Close(P)]
  }

  function BlockTokens(blocks: seq<string>): seq<Token> {
    if blocks == [] then [] else if |blocks| == 1 then LineTokens(BlockLines(blocks[0]))
    else LineTokens(BlockLines(blocks[0])) + [Chr('\n')] + BlockTokens(blocks[1..])
  }

  lemma SpellThree(a: seq<Token>, b: seq<Token>, c: seq<Token>)
    ensures SpellAll(a + b + c) == SpellAll(a) + SpellAll(b) + SpellAll(c)
  {
    SpellConcat(a, b);
    SpellConcat(a + b, c);
  }

  lemma SpellOne(t: Token)
    ensures SpellAll([t]) == Spell(t)
  {
    assert SpellAll([t]) == Spell(t) + SpellAll([]);
  }

  lemma {:induction false} SpellItems(lines: seq<string>)
    requires IsList(lines)
    ensures SpellAll(ItemTokens(lines)) == Items(lines)
  {
    if lines != [] {
      hide Chars, Bullet, Esc;
      var text := Bullet(lines[0]).value;
      SpellItems(lines[1..]);
      SpellChars(text);
      SpellOne(Open(LI));
      SpellOne(Close(LI));
      SpellConcat(Chars(text), [Close(LI)]);
      SpellThree([Open(LI)], Chars(text) + [Close(LI)], ItemTokens(lines[1..]));
    }
  }

  lemma {:induction false} SpellBroken(lines: seq<string>)
    ensures SpellAll(BrokenLines(lines)) == Join(EscAll(lines), "<br>")
  {
    if lines != [] {
      SpellBroken(lines[1..]);
      SpellChars(lines[0]);
      SpellOne(Break);
      SpellThree(Chars(lines[0]), [Break], BrokenLines(lines[1..]));
      assert EscAll(lines)[1..] == EscAll(lines[1..]);
    }
  }

  lemma SpellLines(lines: seq<string>)
    ensures SpellAll(LineTokens(lines)) == RenderLines(lines)
  {
    if lines == [] {
    } else if IsList(lines) {
      SpellItems(lines);
      SpellOne(Open(UL));
      SpellOne(Close(UL));
      SpellThree([Open(UL)], ItemTokens(lines), [Close(UL)]);
    } else if IsHeading(lines) {
      SpellChars(WithoutColon(lines[0]));
      SpellOne(Open(H3));
      SpellOne(Close(H3));
      SpellThree([Open(H3)], Chars(WithoutColon(lines[0])), [Close(H3)]);
    } else {
      SpellBroken(lines);
      SpellOne(Open(P));
      SpellOne(Close(P));
      SpellThree([Open(P)], BrokenLines(lines), [Close(P)]);
    }
  }

  lemma SpellNewline()
    ensures SpellAll([Chr('\n')]) == "\n"
  {
    SpellOne(Chr('\n'));
  }

  lemma {:induction false} SpellBlocks(blocks: seq<string>)
    ensures SpellAll(BlockTokens(blocks)) == Join(RenderBlocks(blocks), "\n")
  {
    if blocks != [] {
      SpellNewline();
      hide LineTokens, RenderLines, BlockLines, Spell;
      SpellBlocks(blocks[1..]);
      SpellLines(BlockLines(blocks[0]));
      SpellThree(LineTokens(BlockLines(blocks[0])), [Chr('\n')], BlockTokens(blocks[1..]));
      assert RenderBlocks(blocks)[1..] == RenderBlocks(blocks[1..]);
    }
  }

  // ---------------------------------------------------------------- what the reader finds there

  /** How a line of a block is shown, given the block's kind. */
  predicate ShownAs(shown: Shown, line: string) {
    match shown.kind
    case Item => Bullet(line) == Some(shown.text)
    case Heading => HasColon(line) && shown.text == WithoutColon(line)
    case Plain => shown.text == line
  }

  function ShownItems(lines: seq<string>): seq<Shown>
    requires IsList(lines)
  {
    if lines == [] then [] else [Shown(Item, Bullet(lines[0]).value)] + ShownItems(lines[1..])
  }

  function ShownPlain(lines: seq<string>): seq<Shown> {
    if lines == [] then [] else [Shown(Plain, lines[0])] + ShownPlain(lines[1..])
  }

  function ShownLines(lines: seq<string>): seq<Shown> {
    if lines == [] then []
    else if IsList(lines) then ShownItems(lines)
    else if IsHeading(lines) then [Shown(Heading, WithoutColon(lines[0]))]
    else ShownPlain(lines)
  }

  function ShownBlocks(blocks: seq<string>): seq<Shown> {
    if blocks == [] then [] else ShownLines(BlockLines(blocks[0])) + ShownBlocks(blocks[1..])
  }

  predicate NoBreaks(lines: seq<string>) {
    forall i :: 0 <= i < |lines| ==> '\n' !in lines[i]
  }

  lemma BulletKeepsOut(line: string)
    requires '\n' !in line && Bullet(line).Some?
    ensures '\n' !in Bullet(line).value
  {
    TrimKeepsOut(line, '\n');
    TrimKeepsOut(TrimStart(line)[1..], '\n');
  }

  lemma ColonKeepsOut(line: string)
    requires '\n' !in line && HasColon(line)
    ensures '\n' !in WithoutColon(line)
  {
    TrimKeepsOut(line, '\n');
    TrimKeepsOut(TrimStart(line), '\n');
  }

  lemma {:induction false} NonBlankMembers(lines: seq<string>)
    ensures forall l :: l in NonBlank(lines) ==> l in lines && Trim(l) != ""
  {
    if lines != [] { NonBlankMembers(lines[1..]); }
  }

  lemma BlockLinesHaveNoBreaks(block: string)
    ensures NoBreaks(BlockLines(block))
  {
    SplitJoins(block, '\n');
    NonBlankMembers(Split(block, '\n'));
  }

  lemma ReadFirst(r: Reader, t: Token, rest: seq<Token>)
    ensures ReadAll(r, [t] + rest) == if Read(r, t).None? then None else ReadAll(Read(r, t).value, rest)
  {
    assert ([t] + rest)[1..] == rest;
  }

  lemma ReadNone(r: Reader)
    ensures ReadAll(r, []) == Some(r)
  {
  }

  /** A text inside an element, and the token that ends it. */
  lemma ReadText(r: Reader, s: string, t: Token, rest: seq<Token>)
    requires InLeaf(r) && r.text == "" && '\n' !in s && Read(r.(text := s), t).Some?
    ensures ReadAll(r, Chars(s) + ([t] + rest)) == ReadAll(Read(r.(text := s), t).value, rest)
  {
    ReadChars(r, s);
    assert r.text + s == s;
    ReadConcat(r, Chars(s), [t] + rest);
    ReadFirst(r.(text := s), t, rest);
  }

  lemma ReadItem(text: string, shown: seq<Shown>, tail: seq<Token>)
    requires '\n' !in text
    ensures ReadAll(Reader(Push(UL, Empty), shown, ""), [Open(LI)] + (Chars(text) + ([Close(LI)] + tail)))
            == ReadAll(Reader(Push(UL, Empty), shown + [Shown(Item, text)], ""), tail)
  {
    hide ReadAll, Chars;
    ReadFirst(Reader(Push(UL, Empty), shown, ""), Open(LI), Chars(text) + ([Close(LI)] + tail));
    ReadText(Reader(Push(LI, Push(UL, Empty)), shown, ""), text, Close(LI), tail);
  }

  lemma {:induction false} ReadItems(lines: seq<string>, shown: seq<Shown>, rest: seq<Token>)
    requires IsList(lines) && NoBreaks(lines)
    ensures ReadAll(Reader(Push(UL, Empty), shown, ""), ItemTokens(lines) + rest)
            == ReadAll(Reader(Push(UL, Empty), shown + ShownItems(lines), ""), rest)
    decreases |lines|
  {
    hide ReadAll, Chars, Bullet, Read;
    if lines == [] {
      assert shown + [] == shown && [] + rest == rest;
    } else {
      var text := Bullet(lines[0]).value;
      var more := shown + [Shown(Item, text)];
      var tail := ItemTokens(lines[1..]) + rest;
      BulletKeepsOut(lines[0]);
      assert ItemTokens(lines) + rest == [Open(LI)] + (Chars(text) + ([Close(LI)] + tail));
      ReadItem(text, shown, tail);
      ReadItems(lines[1..], more, rest);
      assert more + ShownItems(lines[1..]) == shown + ShownItems(lines);
    }
  }

  lemma Nest(a: seq<Token>, b: seq<Token>, c: seq<Token>, d: seq<Token>)
    ensures a + b + c + d == a + (b + (c + d))
  {
  }

  lemma ReadBrokenLine(line: string, shown: seq<Shown>, tail: seq<Token>)
    requires '\n' !in line
    ensures ReadAll(Reader(Push(P, Empty), shown, ""), Chars(line) + ([Break] + tail))
            == ReadAll(Reader(Push(P, Empty), shown + [Shown(Plain, line)], ""), tail)
    ensures ReadAll(Reader(Push(P, Empty), shown, ""), Chars(line) + ([Close(P)] + tail))
            == ReadAll(Reader(Empty, shown + [Shown(Plain, line)], ""), tail)
  {
    hide ReadAll, Chars;
    ReadText(Reader(Push(P, Empty), shown, ""), line, Break, tail);
    ReadText(Reader(Push(P, Empty), shown, ""), line, Close(P), tail);
  }

  lemma {:induction false} ReadBroken(lines: seq<string>, shown: seq<Shown>, rest: seq<Token>)
    requires lines != [] && NoBreaks(lines)
    ensures ReadAll(Reader(Push(P, Empty), shown, ""), BrokenLines(lines) + ([Close(P)] + rest))
            == ReadAll(Reader(Empty, shown + ShownPlain(lines), ""), rest)
    decreases |lines|
  {
    hide ReadAll, Read, Chars;
    var more := shown + [Shown(Plain, lines[0])];
    if |lines| == 1 {
      ReadBrokenLine(lines[0], shown, rest);
      assert more == shown + ShownPlain(lines);
    } else {
      var tail := BrokenLines(lines[1..]) + ([Close(P)] + rest);
      Nest(Chars(lines[0]), [Break], BrokenLines(lines[1..]), [Close(P)] + rest);
      ReadBrokenLine(lines[0], shown, tail);
      assert NoBreaks(lines[1..]);
      ReadBroken(lines[1..], more, rest);
      assert more + ShownPlain(lines[1..]) == shown + ShownPlain(lines);
    }
  }

  lemma ReadHeading(line: string, shown: seq<Shown>, rest: seq<Token>)
    requires HasColon(line) && '\n' !in line
    ensures ReadAll(Reader(Empty, shown, ""), [Open(H3)] + (Chars(WithoutColon(line)) + ([Close(H3)] + rest)))
            == ReadAll(Reader(Empty, shown + [Shown(Heading, WithoutColon(line))], ""), rest)
  {
    ColonKeepsOut(line);
    ReadFirst(Reader(Empty, shown, ""), Open(H3), Chars(WithoutColon(line)) + ([Close(H3)] + rest));
    ReadText(Reader(Push(H3, Empty), shown, ""), WithoutColon(line), Close(H3), rest);
  }

  lemma ReadList(lines: seq<string>, shown: seq<Shown>, rest: seq<Token>)
    requires NoBreaks(lines) && IsList(lines)
    ensures ReadAll(Reader(Empty, shown, ""), [Open(UL)] + (ItemTokens(lines) + ([Close(UL)] + rest)))
            == ReadAll(Reader(Empty, shown + ShownItems(lines), ""), rest)
  {
    hide ReadAll, ItemTokens, ShownItems;
    ReadFirst(Reader(Empty, shown, ""), Open(UL), ItemTokens(lines) + ([Close(UL)] + rest));
    ReadItems(lines, shown, [Close(UL)] + rest);
    ReadFirst(Reader(Push(UL, Empty), shown + ShownItems(lines), ""), Close(UL), rest);
  }

  lemma ReadParagraph(lines: seq<string>, shown: seq<Shown>, rest: seq<Token>)
    requires NoBreaks(lines) && lines != []
    ensures ReadAll(Reader(Empty, shown, ""), [Open(P)] + (BrokenLines(lines) + ([Close(P)] + rest)))
            == ReadAll(Reader(Empty, shown + ShownPlain(lines), ""), rest)
  {
    hide ReadAll, BrokenLines, ShownPlain;
    ReadFirst(Reader(Empty, shown, ""), Open(P), BrokenLines(lines) + ([Close(P)] + rest));
    ReadBroken(lines, shown, rest);
  }

  lemma Regroup(open: Token, body: seq<Token>, close: Token, rest: seq<Token>)
    ensures [open] + body + [close] + rest == [open] + (body + ([close] + rest))
  {
  }

  lemma ReadLines(lines: seq<string>, shown: seq<Shown>, rest: seq<Token>)
    requires NoBreaks(lines)
    ensures ReadAll(Reader(Empty, shown, ""), LineTokens(lines) + rest)
            == ReadAll(Reader(Empty, shown + ShownLines(lines), ""), rest)
  {
    hide ReadAll, Read, Chars, Bullet, WithoutColon, HasColon, Utf16Length;
    hide ItemTokens, BrokenLines, ShownItems, ShownPlain;
    if lines == [] {
      assert shown + [] == shown && [] + rest == rest;
    } else if IsList(lines) {
      Regroup(Open(UL), ItemTokens(lines), Close(UL), rest);
      ReadList(lines, shown, rest);
    } else if IsHeading(lines) {
      Regroup(Open(H3), Chars(WithoutColon(lines[0])), Close(H3), rest);
      ReadHeading(lines[0], shown, rest);
    } else {
      Regroup(Open(P), BrokenLines(lines), Close(P), rest);
      ReadParagraph(lines, shown, rest);
    }
  }

  lemma {:induction false} ReadBlocks(blocks: seq<string>, shown: seq<Shown>)
    requires blocks != []
    ensures ReadAll(Reader(Empty, shown, ""), BlockTokens(blocks))
            == Some(Reader(Empty, shown + ShownBlocks(blocks), ""))
    decreases |blocks|
  {
    ReadNone(Reader(Empty, shown + ShownBlocks(blocks), ""));
    hide ReadAll, LineTokens, ShownLines, BlockLines;
    var lines := BlockLines(blocks[0]);
    var more := shown + ShownLines(lines);
    BlockLinesHaveNoBreaks(blocks[0]);
    if |blocks| == 1 {
      ReadLines(lines, shown, []);
      assert LineTokens(lines) + [] == LineTokens(lines);
      assert more == shown + ShownBlocks(blocks);
    } else {
      var rest := [Chr('\n')] + BlockTokens(blocks[1..]);
      assert BlockTokens(blocks) == LineTokens(lines) + rest;
      ReadLines(lines, shown, rest);
      ReadFirst(Reader(Empty, more, ""), Chr('\n'), BlockTokens(blocks[1..]));
      ReadBlocks(blocks[1..], more);
      assert more + ShownBlocks(blocks[1..]) == shown + ShownBlocks(blocks);
    }
  }

  // ---------------------------------------------------------------- blocks and lines

  function AllLines(blocks: seq<string>): seq<string> {
    if blocks == [] then [] else BlockLines(blocks[0]) + AllLines(blocks[1..])
  }

  lemma {:induction false} NonBlankSkips(s: string)
    ensures NonBlank(Split(DropNewlines(s), '\n')) == NonBlank(Split(s, '\n'))
  {
    if s != "" && s[0] == '\n' {
      NonBlankSkips(s[1..]);
      assert Split(s, '\n')[1..] == Split(s[1..], '\n');
    }
  }

  lemma {:induction false} NonBlankConcat(a: seq<string>, b: seq<string>)
    ensures NonBlank(a + b) == NonBlank(a) + NonBlank(b)
  {
    if a == [] {
      assert a + b == b;
    } else {
      NonBlankConcat(a[1..], b);
      assert (a + b)[1..] == a[1..] + b;
      Assoc(if Trim(a[0]) == "" then [] else [a[0]], NonBlank(a[1..]), NonBlank(b));
    }
  }

  /** A newline ends a line: the lines before it and the lines after it. */
  lemma NonBlankAcross(a: string, b: string)
    requires b != "" && b[0] == '\n'
    ensures NonBlank(Split(a + b, '\n')) == NonBlank(Split(a, '\n')) + NonBlank(Split(b[1..], '\n'))
  {
    SplitConcat(a, b[1..], '\n');
    assert a + b == a + ['\n'] + b[1..];
    NonBlankConcat(Split(a, '\n'), Split(b[1..], '\n'));
  }

  /** Splitting into blocks first loses and reorders no line. */
  lemma {:induction false} BlocksKeepLines(block: string, s: string)
    ensures AllLines(SplitFrom(block, s)) == NonBlank(Split(block + s, '\n'))
    decreases |s|
  {
    hide NonBlank, Split;
    if s == "" {
      assert block + s == block;
      assert BlockLines(block) + [] == BlockLines(block);
    } else if Gap(s) {
      BlocksKeepLines("", DropNewlines(s));
      assert "" + DropNewlines(s) == DropNewlines(s);
      NonBlankSkips(s[1..]);
      NonBlankAcross(block, s);
    } else {
      BlocksKeepLines(block + [s[0]], s[1..]);
      assert block + [s[0]] + s[1..] == block + s;
    }
  }

  ghost predicate Pairwise(shown: seq<Shown>, lines: seq<string>) {
    |shown| == |lines| && forall i :: 0 <= i < |lines| ==> ShownAs(shown[i], lines[i])
  }

  lemma {:induction false} ShownItemsPair(lines: seq<string>)
    requires IsList(lines)
    ensures Pairwise(ShownItems(lines), lines)
  {
    if lines != [] { ShownItemsPair(lines[1..]); }
  }

  lemma {:induction false} ShownPlainPair(lines: seq<string>)
    ensures Pairwise(ShownPlain(lines), lines)
  {
    if lines != [] { ShownPlainPair(lines[1..]); }
  }

  lemma {:induction false} ShownBlocksPair(blocks: seq<string>)
    ensures Pairwise(ShownBlocks(blocks), AllLines(blocks))
  {
    if blocks != [] {
      ShownBlocksPair(blocks[1..]);
      var lines := BlockLines(blocks[0]);
      if IsList(lines) { ShownItemsPair(lines); } else { ShownPlainPair(lines); }
    }
  }

  /** The non-blank lines of a text, in order. */
  function ContentLines(text: string): seq<string> {
    NonBlank(Split(RemoveCR(text), '\n'))
  }

  /**
   Every page is well formed, and what it shows is exactly the text's non-blank lines in order:
   list items without their marker, headings without outer whitespace and colon, the rest as it is.
   */
  lemma RenderIsFaithful(text: string)
    ensures ShownBy(Render(text)).Some?
    ensures Pairwise(ShownBy(Render(text)).value, ContentLines(text))
    ensures ShownBy(Render(text)).value == ShownBlocks(SplitBlocks(RemoveCR(text)))
  {
    var blocks := SplitBlocks(RemoveCR(text));
    SpellBlocks(blocks);
    LexSpelling(BlockTokens(blocks));
    ReadBlocks(blocks, []);
    assert [] + ShownBlocks(blocks) == ShownBlocks(blocks);
    BlocksKeepLines("", RemoveCR(text));
    assert "" + RemoveCR(text) == RemoveCR(text);
    ShownBlocksPair(blocks);
  }

  // ---------------------------------------------------------------- the kind of a block, by its characters

  /** White space, a dash, white space, and what is then left of the line. */
  ghost predicate ItemLine(line: string, text: string) {
    exists a, b ::
      line == a + "-" + b + text && AllSpace(a) && AllSpace(b) && b != "" && (text != "" ==> !IsSpace(text[0]))
  }

  /** A text and a colon, with only white space around them. */
  ghost predicate HeadingLine(line: string, text: string) {
    exists a, b ::
      line == a + text + ":" + b && AllSpace(a) && AllSpace(b) && (text != "" ==> !IsSpace(text[0]))
  }

  /** UTF-16, RFC 2781 section 2.1: a surrogate pair for a character beyond the basic plane. */
  function Utf16(s: string): seq<nat> {
    if s == "" then []
    else
      var u := s[0] as int;
      (if u < 0x1_0000 then [u] else [0xD800 + (u - 0x1_0000) / 0x400, 0xDC00 + (u - 0x1_0000) % 0x400]) + Utf16(s[1..])
  }

  /** What a block's lines must be shown as. */
  ghost predicate BlockShown(shown: seq<Shown>, lines: seq<string>) {
    && |shown| == |lines|
    && if forall l :: l in lines ==> exists text :: ItemLine(l, text) then
         forall i :: 0 <= i < |lines| ==> shown[i].kind == Item && ItemLine(lines[i], shown[i].text)
       else if |lines| == 1 && (exists text :: HeadingLine(lines[0], text)) && |Utf16(lines[0])| < 80 then
         shown[0].kind == Heading && HeadingLine(lines[0], shown[0].text)
       else
         forall i :: 0 <= i < |lines| ==> shown[i] == Shown(Plain, lines[i])
  }

  lemma BulletCuts(line: string)
    requires Bullet(line).Some?
    ensures ItemLine(line, Bullet(line).value)
  {
    var t, text := TrimStart(line), Bullet(line).value;
    var a := TrimStartCuts(line);
    var b := TrimStartCuts(t[1..]);
    hide TrimStart, IsSpace;
    assert b != "" && t == "-" + t[1..];
    assert line == a + "-" + b + text;
  }

  lemma BulletOf(a: string, b: string, text: string)
    requires AllSpace(a) && AllSpace(b) && b != "" && (text != "" ==> !IsSpace(text[0]))
    ensures Bullet(a + "-" + b + text) == Some(text)
  {
    var t := "-" + b + text;
    assert a + "-" + b + text == a + t && t[1] == b[0] && t[1..] == b + text;
    TrimStartOf(a, t);
    TrimStartOf(b, text);
  }

  lemma BulletIsItem(line: string, text: string)
    ensures Bullet(line) == Some(text) <==> ItemLine(line, text)
  {
    if Bullet(line) == Some(text) { BulletCuts(line); }
    if a, b :|
      line == a + "-" + b + text && AllSpace(a) && AllSpace(b) && b != "" && (text != "" ==> !IsSpace(text[0]))
    {
      BulletOf(a, b, text);
    }
  }

  lemma ColonIsHeading(line: string, text: string)
    ensures HasColon(line) && WithoutColon(line) == text <==> HeadingLine(line, text)
  {
    if HasColon(line) && WithoutColon(line) == text {
      var a, b := TrimCuts(line);
      assert Trim(line) == text + ":";
      assert line == a + text + ":" + b;
    }
    if a, b :| line == a + text + ":" + b && AllSpace(a) && AllSpace(b) && (text != "" ==> !IsSpace(text[0])) {
      assert line == a + (text + ":") + b;
      TrimOf(a, text + ":", b);
    }
  }

  lemma {:induction false} LengthInUnits(s: string)
    ensures Utf16Length(s) == |Utf16(s)|
  {
    if s != "" { LengthInUnits(s[1..]); }
  }

  lemma ListByCharacters(lines: seq<string>)
    ensures IsList(lines) <==> forall l :: l in lines ==> exists text :: ItemLine(l, text)
  {
    forall l | l in lines ensures Bullet(l).Some? <==> exists text :: ItemLine(l, text) {
      if Bullet(l).Some? { BulletIsItem(l, Bullet(l).value); }
      if text :| ItemLine(l, text) { BulletIsItem(l, text); }
    }
    hide Bullet, ItemLine;
  }

  lemma HeadingByCharacters(lines: seq<string>)
    ensures IsHeading(lines) <==>
      |lines| == 1 && (exists text :: HeadingLine(lines[0], text)) && |Utf16(lines[0])| < 80
  {
    if |lines| == 1 {
      LengthInUnits(lines[0]);
      if HasColon(lines[0]) { ColonIsHeading(lines[0], WithoutColon(lines[0])); }
      if text :| HeadingLine(lines[0], text) { ColonIsHeading(lines[0], text); }
    }
    hide HasColon, HeadingLine, Utf16;
  }

  lemma {:induction false} ShownItemsAt(lines: seq<string>)
    requires IsList(lines)
    ensures |ShownItems(lines)| == |lines|
    ensures forall i :: 0 <= i < |lines| ==> ShownItems(lines)[i] == Shown(Item, Bullet(lines[i]).value)
  {
    if lines != [] { ShownItemsAt(lines[1..]); }
  }

  /** The kind of a block and the texts shown are decided by the characters of its lines. */
  lemma KindByCharacters(lines: seq<string>)
    ensures BlockShown(ShownLines(lines), lines)
  {
    ListByCharacters(lines);
    HeadingByCharacters(lines);
    if IsList(lines) {
      ShownItemsAt(lines);
      forall i | 0 <= i < |lines| ensures ItemLine(lines[i], Bullet(lines[i]).value) {
        BulletIsItem(lines[i], Bullet(lines[i]).value);
      }
    } else if IsHeading(lines) {
      ColonIsHeading(lines[0], WithoutColon(lines[0]));
    } else {
      ShownPlainPair(lines);
      ShownPlainKind(lines);
    }
    hide ItemLine, HeadingLine, Bullet, HasColon, Utf16;
  }

  lemma {:induction false} ShownPlainKind(lines: seq<string>)
    ensures |ShownPlain(lines)| == |lines|
    ensures forall i :: 0 <= i < |lines| ==> ShownPlain(lines)[i] == Shown(Plain, lines[i])
  {
    if lines != [] { ShownPlainKind(lines[1..]); }
  }

  /** A line of nothing but white space is dropped, and no other. */
  lemma OnlyBlankLinesDrop(line: string)
    ensures NonBlank([line]) == if AllSpace(line) then [] else [line]
  {
    var a, b := TrimCuts(line);
  }

  // ---------------------------------------------------------------- where a text is cut into blocks

  function Newlines(n: nat): string {
    seq(n, _ => '\n')
  }

  /** Blocks with the given numbers of newlines between them. */
  function Weave(blocks: seq<string>, gaps: seq<nat>): string
    requires |blocks| == |gaps| + 1
    decreases |gaps|, 1
  {
    blocks[0] + AfterFirst(blocks, gaps)
  }

  function AfterFirst(blocks: seq<string>, gaps: seq<nat>): string
    requires |blocks| == |gaps| + 1
    decreases |gaps|, 0
  {
    if gaps == [] then "" else Newlines(gaps[0]) + Weave(blocks[1..], gaps[1..])
  }

  /** No two newlines next to each other. */
  predicate Single(block: string) {
    forall i :: 0 <= i < |block| - 1 ==> block[i] != '\n' || block[i + 1] != '\n'
  }

  predicate EndsOpen(block: string) {
    block != "" ==> block[|block| - 1] != '\n'
  }

  predicate StartsOpen(block: string) {
    block != "" ==> block[0] != '\n'
  }

  /** Gaps of two newlines or more, all the newlines there are, between blocks without a gap in them. */
  ghost predicate Apart(blocks: seq<string>, gaps: seq<nat>) {
    && |blocks| == |gaps| + 1
    && (forall i :: 0 <= i < |gaps| ==> gaps[i] >= 2)
    && (forall i :: 0 <= i < |blocks| ==> Single(blocks[i]))
    && (forall i :: 0 <= i < |blocks| - 1 ==> EndsOpen(blocks[i]))
    && (forall i :: 1 <= i < |blocks| ==> StartsOpen(blocks[i]) && (blocks[i] == "" ==> i == |blocks| - 1))
  }

  lemma {:induction false} DropsAll(n: nat, s: string)
    requires StartsOpen(s)
    ensures DropNewlines(Newlines(n) + s) == s
  {
    if n == 0 {
      assert Newlines(0) + s == s;
    } else {
      assert (Newlines(n) + s)[1..] == Newlines(n - 1) + s;
      DropsAll(n - 1, s);
    }
  }

  lemma WeaveStart(blocks: seq<string>, gaps: seq<nat>)
    requires |blocks| == |gaps| + 1 && StartsOpen(blocks[0]) && (blocks[0] == "" ==> gaps == [])
    ensures StartsOpen(Weave(blocks, gaps))
  {
  }

  lemma ApartTail(blocks: seq<string>, gaps: seq<nat>)
    requires Apart(blocks, gaps) && gaps != []
    ensures Apart(blocks[1..], gaps[1..]) && StartsOpen(Weave(blocks[1..], gaps[1..]))
  {
    WeaveStart(blocks[1..], gaps[1..]);
  }

  /** Splitting from the middle of the first block of a woven text. */
  lemma {:induction false} SplitsWoven(before: string, rest: string, blocks: seq<string>, gaps: seq<nat>)
    requires Apart(blocks, gaps) && blocks[0] == before + rest
    ensures SplitFrom(before, rest + AfterFirst(blocks, gaps)) == blocks
    decreases |blocks|, |rest|
  {
    var tail := AfterFirst(blocks, gaps);
    var s := rest + tail;
    if rest != "" {
      assert s[1..] == rest[1..] + tail;
      assert rest[0] == blocks[0][|before|] && (|rest| > 1 ==> rest[1] == blocks[0][|before| + 1]);
      assert !Gap(s);
      assert before + [rest[0]] + rest[1..] == blocks[0];
      SplitsWoven(before + [rest[0]], rest[1..], blocks, gaps);
    } else {
      assert before == blocks[0] && s == tail;
      if gaps != [] {
        var woven := Weave(blocks[1..], gaps[1..]);
        ApartTail(blocks, gaps);
        DropsAll(gaps[0], woven);
        assert Gap(tail);
        SplitsWoven("", blocks[1], blocks[1..], gaps[1..]);
        assert blocks == [blocks[0]] + blocks[1..];
      }
    }
  }

  lemma {:induction false} DropsNewlines(s: string) returns (n: nat)
    ensures s == Newlines(n) + DropNewlines(s) && (s != "" && s[0] == '\n' ==> n >= 1) && (Gap(s) ==> n >= 2)
  {
    if s != "" && s[0] == '\n' {
      n := DropsNewlines(s[1..]);
      var rest := DropNewlines(s);
      assert rest == DropNewlines(s[1..]);
      hide DropNewlines;
      n := n + 1;
      assert Newlines(n) == ['\n'] + Newlines(n - 1);
      Assoc(['\n'], Newlines(n - 1), rest);
      assert s == ['\n'] + s[1..];
    } else {
      n := 0;
    }
  }

  lemma {:induction false} SplitIsWoven(block: string, s: string) returns (gaps: seq<nat>)
    requires Single(block) && (EndsOpen(block) || StartsOpen(s))
    ensures var blocks := SplitFrom(block, s);
      Apart(blocks, gaps) && Weave(blocks, gaps) == block + s && block <= blocks[0]
    decreases |s|
  {
    var blocks := SplitFrom(block, s);
    if s == "" {
      assert block + s == block;
      return [];
    }
    if !Gap(s) {
      assert block + [s[0]] + s[1..] == block + s;
      gaps := SplitIsWoven(block + [s[0]], s[1..]);
      return;
    }
    var rest := DropNewlines(s);
    var n := DropsNewlines(s);
    var more := SplitFrom("", rest);
    var later := SplitIsWoven("", rest);
    assert "" + rest == rest && blocks == [block] + more;
    gaps := [n] + later;
    assert blocks[1..] == more && gaps[1..] == later;
    assert Weave(blocks, gaps) == block + (Newlines(n) + rest);
    FirstStarts(more, later, rest);
  }

  lemma FirstStarts(blocks: seq<string>, gaps: seq<nat>, s: string)
    requires Apart(blocks, gaps) && Weave(blocks, gaps) == s && StartsOpen(s)
    ensures StartsOpen(blocks[0]) && (blocks[0] == "" ==> gaps == [])
  {
    if gaps != [] { assert AfterFirst(blocks, gaps)[0] == '\n'; }
  }

  /** Every text is cut into blocks in just one way: at its gaps, each as long as it can be. */
  lemma CutsAtGaps(s: string) returns (gaps: seq<nat>)
    ensures Apart(SplitBlocks(s), gaps) && Weave(SplitBlocks(s), gaps) == s
    ensures forall blocks, others :: Apart(blocks, others) && Weave(blocks, others) == s ==> blocks == SplitBlocks(s)
  {
    gaps := SplitIsWoven("", s);
    assert "" + s == s;
    forall blocks, others | Apart(blocks, others) && Weave(blocks, others) == s ensures blocks == SplitBlocks(s) {
      assert "" + blocks[0] == blocks[0];
      SplitsWoven("", blocks[0], blocks, others);
    }
  }

  function Flat(parts: seq<seq<Shown>>): seq<Shown> {
    if parts == [] then [] else parts[0] + Flat(parts[1..])
  }

  lemma {:induction false} ShownByBlocks(blocks: seq<string>) returns (parts: seq<seq<Shown>>)
    ensures |parts| == |blocks| && Flat(parts) == ShownBlocks(blocks)
    ensures forall i :: 0 <= i < |blocks| ==> BlockShown(parts[i], BlockLines(blocks[i]))
  {
    hide BlockShown, BlockLines, ShownLines;
    parts := [];
    if blocks != [] {
      var rest := ShownByBlocks(blocks[1..]);
      KindByCharacters(BlockLines(blocks[0]));
      parts := [ShownLines(BlockLines(blocks[0]))] + rest;
      assert parts[1..] == rest;
    }
  }

  /**
   For every text, cut at its gaps: what is shown is, block by block, list items when every line is one,
   else a heading when it is one short line ending with a colon, else the lines as they are.
   */
  lemma ShownExactly(text: string) returns (blocks: seq<string>, gaps: seq<nat>, parts: seq<seq<Shown>>)
    ensures Apart(blocks, gaps) && Weave(blocks, gaps) == RemoveCR(text)
    ensures |parts| == |blocks| && ShownBy(Render(text)) == Some(Flat(parts))
    ensures forall i :: 0 <= i < |blocks| ==> BlockShown(parts[i], BlockLines(blocks[i]))
  {
    hide Render, ShownBy, BlockShown, SplitBlocks, BlockLines;
    blocks := SplitBlocks(RemoveCR(text));
    gaps := CutsAtGaps(RemoveCR(text));
    RenderIsFaithful(text);
    parts := ShownByBlocks(blocks);
  }

  // ---------------------------------------------------------------- rendering is local to blocks

  function ToCrlf(s: string): string {
    if s == "" then "" else (if s[0] == '\n' then "\r\n" else [s[0]]) + ToCrlf(s[1..])
  }

  lemma {:induction false} RemoveCRConcat(a: string, b: string)
    ensures RemoveCR(a + b) == RemoveCR(a) + RemoveCR(b)
  {
    if a == "" {
      assert a + b == b;
    } else {
      RemoveCRConcat(a[1..], b);
      assert (a + b)[1..] == a[1..] + b;
      Assoc(if a[0] == '\r' then "" else [a[0]], RemoveCR(a[1..]), RemoveCR(b));
    }
  }

  lemma {:induction false} CrlfLosesNothing(s: string)
    ensures RemoveCR(ToCrlf(s)) == RemoveCR(s)
  {
    if s != "" {
      CrlfLosesNothing(s[1..]);
      RemoveCRConcat(if s[0] == '\n' then "\r\n" else [s[0]], ToCrlf(s[1..]));
      RemoveCRConcat(['\r'], ['\n']);
    }
  }

  /** The line endings a text came with do not matter. */
  lemma LineEndingsDoNotMatter(text: string)
    ensures Render(ToCrlf(text)) == Render(text)
  {
    CrlfLosesNothing(text);
  }

  predicate EndsInGap(s: string) {
    |s| >= 2 && s[|s| - 1] == '\n' && s[|s| - 2] == '\n'
  }

  function AfterGap(s: string): (r: string)
    ensures Gap(r) && r[1..] == "\n" + s && r[2..] == s
  {
    "\n\n" + s
  }

  lemma {:induction false} DropAcross(a: string, b: string)
    ensures DropNewlines(a + b) == if DropNewlines(a) == "" then DropNewlines(b) else DropNewlines(a) + b
  {
    if a == "" {
      assert a + b == b;
    } else if a[0] == '\n' {
      DropAcross(a[1..], b);
      assert (a + b)[1..] == a[1..] + b;
    }
  }

  lemma DropGap(s: string)
    ensures DropNewlines(AfterGap(s)) == DropNewlines(s)
  {
    var one := "\n" + s;
    assert one[1..] == s && AfterGap(s)[1..] == one;
  }

  /** A newline at either end of a block does not change what it renders to. */
  lemma OuterNewlines(block: string)
    ensures BlockLines(block + "\n") == BlockLines(block)
    ensures BlockLines("\n" + block) == BlockLines(block)
  {
    NonBlankAcross(block, "\n");
    NonBlankAcross("", "\n" + block);
    assert "" + ("\n" + block) == "\n" + block && ("\n" + block)[1..] == block && "\n"[1..] == "";
  }

  /** What the blocks of `s`, the first continuing `block`, render to. */
  function RenderFrom(block: string, s: string): seq<string> {
    RenderBlocks(SplitFrom(block, s))
  }

  lemma RenderFromSteps(block: string, s: string)
    ensures s == "" ==> RenderFrom(block, s) == [RenderLines(BlockLines(block))]
    ensures Gap(s) ==> RenderFrom(block, s) == [RenderLines(BlockLines(block))] + RenderFrom("", DropNewlines(s))
    ensures s != "" && !Gap(s) ==> RenderFrom(block, s) == RenderFrom(block + [s[0]], s[1..])
  {
    if Gap(s) {
      assert SplitFrom(block, s)[1..] == SplitFrom("", DropNewlines(s));
    }
  }

  lemma {:induction false} LeadingNewline(block: string, s: string)
    ensures RenderFrom("\n" + block, s) == RenderFrom(block, s)
    decreases |s|
  {
    hide RenderFrom, BlockLines, RenderLines;
    OuterNewlines(block);
    RenderFromSteps(block, s);
    RenderFromSteps("\n" + block, s);
    if s != "" && !Gap(s) {
      LeadingNewline(block + [s[0]], s[1..]);
      Assoc("\n", block, [s[0]]);
    }
  }

  /** The newlines a text starts with matter only when they make a gap, which adds an empty block. */
  lemma LeadingNewlines(s: string)
    ensures RenderFrom("", s)
            == if Gap(s) then [""] + RenderFrom("", DropNewlines(s)) else RenderFrom("", DropNewlines(s))
  {
    RenderFromSteps("", s);
    if s != "" && s[0] == '\n' && !Gap(s) {
      LeadingNewline("", s[1..]);
      assert "" + [s[0]] == "\n" + "";
    }
  }

  /** Dropping the first newlines leaves the end of a text as it is, unless nothing else is there. */
  lemma {:induction false} DropKeepsEnd(s: string)
    ensures var r := DropNewlines(s);
      if r == "" then forall i :: 0 <= i < |s| ==> s[i] == '\n'
      else r[|r| - 1] == s[|s| - 1] && (|r| >= 2 ==> r[|r| - 2] == s[|s| - 2])
  {
    if s != "" && s[0] == '\n' { DropKeepsEnd(s[1..]); }
  }

  lemma EndsAlike(a: string)
    ensures Gap(a) ==> |DropNewlines(a)| < |a|
    ensures Gap(a) && DropNewlines(a) == "" ==> EndsInGap(a)
    ensures Gap(a) && DropNewlines(a) != "" ==> (EndsInGap(a) <==> EndsInGap(DropNewlines(a)))
    ensures a != "" && !Gap(a) ==> (EndsInGap(a) <==> EndsInGap(a[1..]))
  {
    DropKeepsEnd(a);
    DropSmall(a);
  }

  /** What is left of newlines and one more character ends in no gap. */
  lemma {:induction false} DropSmall(s: string)
    ensures |DropNewlines(s)| == 1 ==> s[|s| - 1] != '\n'
  {
    if s != "" && s[0] == '\n' { DropSmall(s[1..]); }
  }

  lemma GapsAcross(a: string, b: string)
    ensures var s := a + AfterGap(b);
      && s != ""
      && (Gap(s) <==> a == "" || a == "\n" || Gap(a))
      && (a != "" ==> s[0] == a[0] && s[1..] == a[1..] + AfterGap(b))
      && DropNewlines(s) == if DropNewlines(a) == "" then DropNewlines(b) else DropNewlines(a) + AfterGap(b)
  {
    DropAcross(a, AfterGap(b));
    DropGap(b);
    hide DropNewlines, AfterGap;
    var gap := AfterGap(b);
    var s := a + gap;
    assert |s| >= 2 && s[0] == (if a == "" then '\n' else a[0]) && s[1] == (if |a| < 2 then '\n' else a[1]);
    if a != "" { assert s[1..] == a[1..] + gap; }
  }

  lemma SingleNewline()
    ensures !Gap("\n") && "\n"[1..] == "" && DropNewlines("\n") == DropNewlines("") == ""
  {
    assert "\n"[1..] == "";
  }

  /** A gap put after a text that does not end in one separates there, and nowhere else. */
  lemma {:induction false} RenderAcross(block: string, a: string, b: string)
    requires !EndsInGap(a)
    ensures RenderFrom(block, a + AfterGap(b)) == RenderFrom(block, a) + RenderFrom("", DropNewlines(b))
    decreases |a|
  {
    SingleNewline();
    hide RenderFrom, BlockLines, RenderLines, DropNewlines, Gap, EndsInGap, AfterGap;
    RenderFromSteps(block, a + AfterGap(b));
    RenderFromSteps(block, a);
    GapsAcross(a, b);
    EndsAlike(a);
    if a == "" {
    } else if a == "\n" {
      OuterNewlines(block);
      RenderFromSteps(block + "\n", "");
    } else if Gap(a) {
      RenderAcross("", DropNewlines(a), b);
      Assoc([RenderLines(BlockLines(block))], RenderFrom("", DropNewlines(a)), RenderFrom("", DropNewlines(b)));
    } else {
      RenderAcross(block + [a[0]], a[1..], b);
    }
  }

  /** A gap that runs into the newlines before it costs a block. */
  lemma {:induction false} RenderLoses(block: string, a: string, b: string)
    requires EndsInGap(a)
    ensures |RenderFrom(block, a + AfterGap(b))| < |RenderFrom(block, a)| + |RenderFrom("", b)|
    decreases |a|
  {
    SingleNewline();
    assert a != "" && (a != "\n" || Gap(a));
    hide RenderFrom, BlockLines, RenderLines, DropNewlines, Gap, EndsInGap, AfterGap;
    RenderFromSteps(block, a + AfterGap(b));
    RenderFromSteps(block, a);
    GapsAcross(a, b);
    EndsAlike(a);
    if !Gap(a) {
      RenderLoses(block + [a[0]], a[1..], b);
    } else if DropNewlines(a) == "" {
      RenderFromSteps("", "");
      LeadingNewlines(b);
    } else {
      RenderLoses("", DropNewlines(a), b);
    }
  }

  /** Joining with a gap: the blocks of both sides, one after the other, when no gap meets it. */
  lemma FusionCount(a: string, b: string)
    ensures var r, ra, rb := RenderFrom("", a + AfterGap(b)), RenderFrom("", a), RenderFrom("", b);
      if !EndsInGap(a) && !Gap(b) then r == ra + rb else |r| < |ra| + |rb|
  {
    hide RenderFrom, DropNewlines, Gap, EndsInGap;
    if EndsInGap(a) {
      RenderLoses("", a, b);
    } else {
      LeadingNewlines(b);
      RenderAcross("", a, b);
    }
  }

  // ---------------------------------------------------------------- rendered blocks are lines of the output

  lemma {:induction false} EncodeKeepsOut(s: string)
    requires '\n' !in s
    ensures '\n' !in Encode(5, s)
  {
    if s != "" { EncodeKeepsOut(s[1..]); }
  }

  lemma EscKeepsOut(s: string)
    requires '\n' !in s
    ensures '\n' !in Esc(s)
  {
    EscIsOnePass(s);
    EncodeKeepsOut(s);
  }

  lemma {:induction false} ItemsOnOneLine(lines: seq<string>)
    requires IsList(lines) && NoBreaks(lines)
    ensures '\n' !in Items(lines)
  {
    if lines != [] {
      BulletKeepsOut(lines[0]);
      EscKeepsOut(Bullet(lines[0]).value);
      ItemsOnOneLine(lines[1..]);
    }
  }

  lemma {:induction false} JoinedOnOneLine(lines: seq<string>)
    requires NoBreaks(lines)
    ensures '\n' !in Join(EscAll(lines), "<br>")
  {
    if lines != [] {
      EscKeepsOut(lines[0]);
      JoinedOnOneLine(lines[1..]);
      assert EscAll(lines)[1..] == EscAll(lines[1..]);
    }
  }

  lemma LinesOnOneLine(lines: seq<string>)
    requires NoBreaks(lines)
    ensures '\n' !in RenderLines(lines)
  {
    hide Items, EscAll, Join, Trim, TrimStart, TrimEnd, Bullet, Esc;
    if lines == [] {
    } else if IsList(lines) {
      ItemsOnOneLine(lines);
    } else if IsHeading(lines) {
      ColonKeepsOut(lines[0]);
      EscKeepsOut(WithoutColon(lines[0]));
    } else {
      JoinedOnOneLine(lines);
    }
  }

  lemma {:induction false} BlocksAreLines(blocks: seq<string>)
    ensures forall r :: r in RenderBlocks(blocks) ==> '\n' !in r
  {
    if blocks != [] {
      BlocksAreLines(blocks[1..]);
      BlockLinesHaveNoBreaks(blocks[0]);
      LinesOnOneLine(BlockLines(blocks[0]));
    }
  }

  /** The output's lines are the rendered blocks. */
  lemma OutputLines(blocks: seq<string>)
    requires blocks != []
    ensures RenderBlocks(blocks) != [] && Split(Join(RenderBlocks(blocks), "\n"), '\n') == RenderBlocks(blocks)
  {
    BlocksAreLines(blocks);
    JoinSplits(RenderBlocks(blocks), '\n');
  }

  lemma {:induction false} RemoveCRClean(s: string)
    ensures '\r' !in RemoveCR(s)
    ensures '\r' !in s ==> RemoveCR(s) == s
  {
    if s != "" { RemoveCRClean(s[1..]); }
  }

  lemma FusedOutput(a: string, b: string)
    ensures Join(RenderFrom("", a + AfterGap(b)), "\n")
            == Join(RenderFrom("", a), "\n") + "\n" + Join(RenderFrom("", b), "\n")
            <==> !EndsInGap(a) && !Gap(b)
  {
    OutputLines(SplitFrom("", a + AfterGap(b)));
    BlocksAreLines(SplitFrom("", a));
    BlocksAreLines(SplitFrom("", b));
    hide SplitBlocks, RenderBlocks, EndsInGap, Gap, Join, Split, AfterGap;
    var ra, rb := RenderFrom("", a), RenderFrom("", b);
    FusionCount(a, b);
    JoinConcat(ra, rb, "\n");
    JoinSplits(ra + rb, '\n');
  }

  /**
   Rendering two texts with a gap between them is rendering each and putting the results on
   separate lines, exactly when neither side's newlines run into that gap.
   */
  lemma RenderFuses(a: string, b: string)
    ensures var ca, cb := RemoveCR(a), RemoveCR(b);
      Render(a + "\n\n" + b) == Render(a) + "\n" + Render(b) <==> !EndsInGap(ca) && !Gap(cb)
  {
    var ca, cb := RemoveCR(a), RemoveCR(b);
    RemoveCRConcat(a + "\n\n", b);
    RemoveCRConcat(a, "\n\n");
    RemoveCRClean("\n\n");
    Assoc(ca, "\n\n", cb);
    assert RemoveCR(a + "\n\n" + b) == ca + AfterGap(cb);
    hide RenderBlocks, SplitFrom, RemoveCR, EndsInGap, Gap, Join, AfterGap;
    FusedOutput(ca, cb);
  }
}
