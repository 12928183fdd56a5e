/** Every text the tokenizer can meet, spelled out bit by bit. */
module Spellings {
  import opened Options
  import opened KeyValues
  import opened Syntax

  /** The twelve characters that separate words and mean nothing. */
  const WHITE := ['\t', '\n', '\U{0B}', '\U{0C}', '\r', '\U{1C}', '\U{1D}', '\U{1E}', '\U{1F}', ' ', '\U{85}', '\U{A0}']

  /** A piece of a text: a white-space character, a comment with the line end behind it, a token. */
  datatype Bit = White(c: char) | Remark(line: string) | InQuotes(text: string) | Word(text: string) | Opens | Closes

  /** A word begins with no bracket and no comment, and holds no white space, no brace and no quote. */
  predicate PlainWord(w: string) {
    && w != "" && w[0] != '[' && !("//" <= w)
    && forall i :: 0 <= i < |w| ==> w[i] !in WHITE && w[i] != '{' && w[i] != '}' && w[i] != '"'
  }

  predicate Fine(b: Bit) {
    match b
    case White(c) => c in WHITE
    case Remark(line) => '\n' !in line
    case InQuotes(text) => '"' !in text
    case Word(text) => PlainWord(text)
    case Opens => true
    case Closes => true
  }

  function Spell(b: Bit): (s: string)
    ensures Fine(b) ==> s != ""
  {
    match b
    case White(c) => [c]
    case Remark(line) => "//" + line + "\n"
    case InQuotes(text) => "\"" + text + "\""
    case Word(text) => text
    case Opens => "{"
    case Closes => "}"
  }

  function Meaning(b: Bit): seq<Token> {
    match b
    case White(_) => []
    case Remark(_) => []
    case InQuotes(text) => [Str(text)]
    case Word(text) => [Str(text)]
    case Opens => [Open]
    case Closes => [Close]
  }

  /** How a text can end, beside simply ending: in a comment without a line end, in a string that is not closed, or
      at a bracket, whatever follows it. */
  datatype End = Clean | LastRemark(line: string) | Unclosed(text: string) | Bracket(rest: string)

  predicate FineEnd(e: End) {
    match e
    case Clean => true
    case LastRemark(line) => '\n' !in line
    case Unclosed(text) => '"' !in text
    case Bracket(_) => true
  }

  function SpellEnd(e: End): string {
    match e
    case Clean => ""
    case LastRemark(line) => "//" + line
    case Unclosed(text) => "\"" + text
    case Bracket(rest) => "[" + rest
  }

  function Stop(e: End): Option<Error> {
    match e
    case Clean => None
    case LastRemark(_) => None
    case Unclosed(_) => Some(UnterminatedString)
    case Bracket(_) => Some(Conditional)
  }

  /** Behind a word something has to end it: it would swallow another word, a comment or a bracket. */
  predicate EndsWordBit(b: Bit) {
    !b.Word? && !b.Remark?
  }

  predicate WellSpelled(bits: seq<Bit>, e: End) {
    && (forall i :: 0 <= i < |bits| ==> Fine(bits[i])) && FineEnd(e)
    && (forall i :: 0 < i < |bits| && bits[i - 1].Word? ==> EndsWordBit(bits[i]))
    && (bits != [] && bits[|bits| - 1].Word? ==> e.Clean? || e.Unclosed?)
  }

  function TextOf(bits: seq<Bit>, e: End): string {
    if bits == [] then SpellEnd(e) else Spell(bits[0]) + TextOf(bits[1..], e)
  }

  function MeaningOf(bits: seq<Bit>): seq<Token> {
    if bits == [] then [] else Meaning(bits[0]) + MeaningOf(bits[1..])
  }

  // ---- White space ----

  lemma {:induction false} WhiteExactly(c: char)
    ensures IsSpace(c) <==> c in WHITE
  {
    if IsSpace(c) {
      InWhite(c);
    }
    if c in WHITE {
      WhiteIsSpace(c);
    }
  }

  lemma {:induction false} WhiteIsSpace(c: char)
    requires c in WHITE
    ensures IsSpace(c)
  {
    var i :| 0 <= i < |WHITE| && WHITE[i] == c;
    assert IsSpace(WHITE[0]) && IsSpace(WHITE[1]) && IsSpace(WHITE[2]) && IsSpace(WHITE[3]);
    assert IsSpace(WHITE[4]) && IsSpace(WHITE[5]) && IsSpace(WHITE[6]) && IsSpace(WHITE[7]);
    assert IsSpace(WHITE[8]) && IsSpace(WHITE[9]) && IsSpace(WHITE[10]) && IsSpace(WHITE[11]);
  }

  lemma {:induction false} InWhite(c: char)
    requires IsSpace(c)
    ensures c in WHITE
  {
    var n := c as int;
    var i := if n <= 13 then n - 9 else if n <= 32 then n - 23 else if n == 133 then 10 else 11;
    assert WHITE[i] == c;
  }

  lemma {:induction false} WordChars(w: string)
    requires PlainWord(w)
    ensures forall i :: 0 <= i < |w| ==> !EndsWord(w[i])
    ensures !IsSpace(w[0]) && w[0] != '{' && w[0] != '}' && w[0] != '"' && w[0] != '['
  {
    forall i | 0 <= i < |w| ensures !EndsWord(w[i]) {
      WhiteExactly(w[i]);
    }
    WhiteExactly(w[0]);
  }

  // ---- A spelled text lexes to its meaning ----

  lemma {:induction false} WordRuns(w: string, rest: string)
    requires PlainWord(w) && (rest == "" || EndsWord(rest[0]))
    ensures WordEnd(w + rest, 0) == |w|
    ensures Lex(w + rest) == Before(Str(w), Lex(rest))
  {
    hide IsSpace;
    WordChars(w);
    var s := w + rest;
    assert forall i :: 0 <= i < |w| ==> s[i] == w[i];
    assert !IsComment(s) by {
      if |w| == 1 && rest != "" {
        assert s[1] == rest[0];
        WhiteExactly('/');
        SlashIsNotWhite();
      }
    }
    assert s[..|w|] == w && s[|w|..] == rest;
  }

  lemma {:induction false} SlashIsNotWhite()
    ensures !IsSpace('/')
  {
  }

  lemma {:induction false} OneBit(b: Bit, rest: string)
    requires Fine(b) && (b.Word? ==> rest == "" || EndsWord(rest[0]))
    ensures Lex(Spell(b) + rest) == After(Meaning(b), Lex(rest))
  {
    hide Lex, IsSpace;
    match b
    case White(c) => WhiteExactly(c); LexSpace(c, rest);
    case Remark(line) => LexComment(line, rest);
    case InQuotes(text) => LexQuoted(text, rest);
    case Word(text) => WordRuns(text, rest);
    case Opens => LexBrace(true, rest);
    case Closes => LexBrace(false, rest);
  }

  lemma {:induction false} LexTheEnd(e: End)
    requires FineEnd(e)
    ensures Lex(SpellEnd(e)) == Lexed([], Stop(e))
  {
    var s := SpellEnd(e);
    match e
    case Clean =>
    case LastRemark(line) =>
      assert IsComment(s) && '\n' !in s;
      assert IndexOf(s, '\n', 0) == |s| && s[|s|..] == "";
    case Unclosed(text) =>
      assert IndexOf(s, '"', 1) == |s| by {
        assert forall j :: 1 <= j < |s| ==> s[j] == text[j - 1];
      }
    case Bracket(rest) =>
  }

  lemma {:induction false} WhatFollows(bits: seq<Bit>, e: End)
    requires bits != [] && WellSpelled(bits, e)
    ensures WellSpelled(bits[1..], e)
    ensures bits[0].Word? ==> TextOf(bits[1..], e) == "" || EndsWord(TextOf(bits[1..], e)[0])
  {
    hide IsSpace;
    if bits[0].Word? {
      if |bits| > 1 {
        assert EndsWordBit(bits[1]) && Fine(bits[1]);
        if bits[1].White? {
          WhiteExactly(bits[1].c);
        }
      }
    }
    assert forall i :: 0 < i < |bits[1..]| ==> bits[1..][i] == bits[i + 1] && bits[1..][i - 1] == bits[i];
  }

  /** A text spelled out bit by bit lexes to what the bits mean, and stops with the error of its end. */
  lemma {:induction false} SpelledLexes(bits: seq<Bit>, e: End)
    requires WellSpelled(bits, e)
    ensures Lex(TextOf(bits, e)) == Lexed(MeaningOf(bits), Stop(e))
    decreases |bits|
  {
    hide Lex, WellSpelled, Meaning, Spell, EndsWord;
    if bits == [] {
      FineAtTheEnd(bits, e);
      LexTheEnd(e);
    } else {
      WhatFollows(bits, e);
      FineFirst(bits, e);
      SpelledLexes(bits[1..], e);
      OneBit(bits[0], TextOf(bits[1..], e));
    }
  }

  lemma {:induction false} FineFirst(bits: seq<Bit>, e: End)
    requires bits != [] && WellSpelled(bits, e)
    ensures Fine(bits[0])
  {
  }

  lemma {:induction false} FineAtTheEnd(bits: seq<Bit>, e: End)
    requires WellSpelled(bits, e)
    ensures FineEnd(e)
  {
  }

  // ---- Every text is spelled ----

  predicate FollowsWord(bits: seq<Bit>, e: End) {
    if bits == [] then e.Clean? || e.Unclosed? else EndsWordBit(bits[0])
  }

  lemma {:induction false} Prefixed(b: Bit, bits: seq<Bit>, e: End)
    requires Fine(b) && WellSpelled(bits, e)
    requires b.Word? ==> FollowsWord(bits, e)
    ensures WellSpelled([b] + bits, e) && TextOf([b] + bits, e) == Spell(b) + TextOf(bits, e)
  {
    hide Fine, FineEnd, EndsWordBit;
    var all := [b] + bits;
    assert all[1..] == bits;
    forall i | 0 < i < |all| && all[i - 1].Word? ensures EndsWordBit(all[i]) {
      if i > 1 {
        assert all[i] == bits[i - 1] && all[i - 1] == bits[i - 2];
      }
    }
  }

  /** A character by itself is skipped exactly where it is one of the twelve. */
  lemma {:induction false} OnlyWhiteIsSkipped(c: char)
    ensures Lex([c]) == Lexed([], None) <==> c in WHITE
    ensures c !in WHITE && c !in {'{', '}', '"', '['} ==> Lex([c]) == Lexed([Str([c])], None)
  {
    hide Lex;
    var (bits, e) := Single(c);
    assert [c][0] == c;
    SpelledLexes(bits, e);
    assert TextOf(bits, e) == [c] by { SingleText(c); }
  }

  function Single(c: char): (r: (seq<Bit>, End))
    ensures WellSpelled(r.0, r.1)
  {
    if c in WHITE then ([White(c)], Clean)
    else if c == '{' then ([Opens], Clean)
    else if c == '}' then ([Closes], Clean)
    else if c == '"' then ([], Unclosed(""))
    else if c == '[' then ([], Bracket(""))
    else ([Word([c])], Clean)
  }

  lemma {:induction false} SingleText(c: char)
    ensures var (bits, e) := Single(c); TextOf(bits, e) == [c]
    ensures var (bits, e) := Single(c); bits != [] ==> MeaningOf(bits) == Meaning(bits[0])
  {
    var (bits, e) := Single(c);
    if bits != [] {
      assert bits[1..] == [];
      assert TextOf([], e) == "" && MeaningOf([]) == [];
    }
  }

  /** There is no other text: any one at all is well spelled in some way, so it lexes to what that means. */
  lemma {:induction false} EveryTextIsSpelled(s: string) returns (bits: seq<Bit>, e: End)
    ensures WellSpelled(bits, e) && TextOf(bits, e) == s
    ensures s == "" || EndsWord(s[0]) ==> FollowsWord(bits, e)
    decreases |s|, 2
  {
    hide IsSpace, WellSpelled, EndsWord;
    if s == "" {
      bits, e := [], Clean;
      NothingSpelled(e);
    } else {
      bits, e := FirstBit(s);
    }
  }

  lemma {:induction false} NothingSpelled(e: End)
    requires FineEnd(e)
    ensures WellSpelled([], e)
  {
  }

  lemma {:induction false} FirstBit(s: string) returns (bits: seq<Bit>, e: End)
    requires s != ""
    ensures WellSpelled(bits, e) && TextOf(bits, e) == s
    ensures EndsWord(s[0]) ==> FollowsWord(bits, e)
    decreases |s|, 1
  {
    hide IsSpace, WellSpelled;
    WhiteExactly(s[0]);
    var first, k := Opens, 1;
    if IsSpace(s[0]) {
      first := White(s[0]);
    } else if s[0] == '{' {
      first := Opens;
    } else if s[0] == '}' {
      first := Closes;
    } else if s[0] == '"' {
      var j := IndexOf(s, '"', 1);
      if j == |s| {
        bits, e := [], Unclosed(s[1..]);
        NothingSpelled(e);
        return;
      }
      first, k := InQuotes(s[1..j]), j + 1;
      assert "\"" + s[1..j] + "\"" == s[..k];
    } else {
      bits, e := FirstOther(s);
      return;
    }
    assert Spell(first) == s[..k];
    bits, e := EveryTextIsSpelled(s[k..]);
    Prefixed(first, bits, e);
    assert s[..k] + s[k..] == s;
    bits := [first] + bits;
  }

  lemma {:induction false} FirstOther(s: string) returns (bits: seq<Bit>, e: End)
    requires s != "" && !EndsWord(s[0])
    ensures WellSpelled(bits, e) && TextOf(bits, e) == s
    decreases |s|, 0
  {
    hide IsSpace, WellSpelled;
    if IsComment(s) {
      var j := IndexOf(s, '\n', 0);
      if j == |s| {
        bits, e := [], LastRemark(s[2..]);
        NothingSpelled(e);
      } else {
        var first := Remark(s[2..j]);
        assert s == Spell(first) + s[j + 1..];
        bits, e := EveryTextIsSpelled(s[j + 1..]);
        Prefixed(first, bits, e);
        bits := [first] + bits;
      }
    } else if s[0] == '[' {
      bits, e := [], Bracket(s[1..]);
      NothingSpelled(e);
    } else {
      var j := WordEnd(s, 0);
      var first := Word(s[..j]);
      PlainFront(s, j);
      bits, e := EveryTextIsSpelled(s[j..]);
      Prefixed(first, bits, e);
      bits := [first] + bits;
    }
  }

  lemma {:induction false} PlainFront(s: string, j: nat)
    requires 0 < j <= |s| && !IsComment(s) && s[0] != '[' && forall i :: 0 <= i < j ==> !EndsWord(s[i])
    ensures PlainWord(s[..j])
  {
    hide IsSpace;
    forall i | 0 <= i < j ensures s[i] !in WHITE {
      WhiteExactly(s[i]);
    }
    NoSlashes(s, j);
  }

  lemma {:induction false} NoSlashes(s: string, j: nat)
    requires 0 < j <= |s| && !IsComment(s)
    ensures !("//" <= s[..j])
  {
    if j >= 2 {
      assert s[..j][0] == s[0] && s[..j][1] == s[1];
    }
  }

  // ---- What the parser makes of the tokens ----

  /** Where a list of tokens stops making sense behind whole children: at a brace of the wrong kind, or at a name
      that is given nothing. */
  lemma {:induction false} ParserStops(ks: seq<KV>, name: string, more: seq<Token>, stop: Option<Error>, closing: bool)
    ensures Parse(TokensOfAll(ks) + ([Open] + more), stop, closing) == Err(BlockWithNoName)
    ensures Parse(TokensOfAll(ks) + ([Str(name), Close] + more), stop, closing) == Err(KeyThenClose)
    ensures Parse(TokensOfAll(ks) + ([Close] + more), stop, false) == Err(UnmatchedClose)
    ensures Parse(TokensOfAll(ks) + [Str(name)], None, closing) == Err(KeyWithNoValue)
    ensures Parse(TokensOfAll(ks) + [], None, true) == Err(EndInsideBlock)
  {
    hide TokensOfAll;
    ParseAll(ks, [Open] + more, stop, closing);
    ParseAll(ks, [Str(name), Close] + more, stop, closing);
    ParseAll(ks, [Close] + more, stop, false);
    ParseAll(ks, [Str(name)], None, closing);
    ParseAll(ks, [], None, true);
  }

  /** The tokenizer's error takes the place of running out of tokens, and an error inside a block is the block's. */
  lemma {:induction false} ParserStopsInside(ks: seq<KV>, name: string, inner: seq<Token>, e: Error, closing: bool,
         stop: Option<Error>)
    ensures Parse(TokensOfAll(ks) + [], Some(e), closing) == Err(e)
    ensures Parse(TokensOfAll(ks) + [Str(name)], Some(e), closing) == Err(e)
    ensures Parse(inner, stop, true).Err? ==>
              Parse(TokensOfAll(ks) + ([Str(name), Open] + inner), stop, closing) == Err(Parse(inner, stop, true).error)
  {
    hide TokensOfAll;
    ParseAll(ks, [], Some(e), closing);
    ParseAll(ks, [Str(name)], Some(e), closing);
    ParseAll(ks, [Str(name), Open] + inner, stop, closing);
    assert ([Str(name), Open] + inner)[2..] == inner;
  }

  // ---- Line ends ----

  function Returned(b: Bit): (r: seq<Bit>)
    ensures r != []
  {
    match b
    case White(c) => if c == '\n' then [White('\r'), White('\n')] else [b]
    case Remark(line) => [Remark(line + "\r")]
    case _ => [b]
  }

  /** The same text with a carriage return in front of every line feed outside strings. */
  function WithReturns(bits: seq<Bit>): seq<Bit> {
    if bits == [] then [] else Returned(bits[0]) + WithReturns(bits[1..])
  }

  lemma {:induction false} ReturnedFirst(b: Bit, more: seq<Bit>, e: End)
    requires Fine(b) && WellSpelled(more, e) && (b.Word? ==> FollowsWord(more, e))
    ensures WellSpelled(Returned(b) + more, e) && (EndsWordBit((Returned(b) + more)[0]) <==> EndsWordBit(b))
    ensures MeaningOf(Returned(b) + more) == Meaning(b) + MeaningOf(more)
  {
    hide PlainWord, WHITE, WellSpelled, FollowsWord;
    if b == White('\n') {
      CarriageReturn();
      Prefixed(b, more, e);
      Prefixed(White('\r'), [b] + more, e);
      assert Returned(b) + more == [White('\r')] + ([b] + more);
      assert (Returned(b) + more)[1..] == [b] + more && ([b] + more)[1..] == more;
    } else {
      Prefixed(Returned(b)[0], more, e);
      assert (Returned(b) + more)[1..] == more;
    }
  }

  lemma {:induction false} ReturnsSpelled(bits: seq<Bit>, e: End)
    requires WellSpelled(bits, e)
    ensures WellSpelled(WithReturns(bits), e) && MeaningOf(WithReturns(bits)) == MeaningOf(bits)
    ensures FollowsWord(bits, e) ==> FollowsWord(WithReturns(bits), e)
    decreases |bits|
  {
    hide Fine, WellSpelled, Returned, Meaning, EndsWordBit;
    if bits != [] {
      WhatFollows(bits, e);
      FineFirst(bits, e);
      if bits[0].Word? {
        BehindWord(bits, e);
      }
      ReturnsSpelled(bits[1..], e);
      ReturnedFirst(bits[0], WithReturns(bits[1..]), e);
    }
  }

  lemma {:induction false} CarriageReturn()
    ensures Fine(White('\r'))
  {
    assert WHITE[4] == '\r';
  }

  lemma {:induction false} BehindWord(bits: seq<Bit>, e: End)
    requires bits != [] && WellSpelled(bits, e) && bits[0].Word?
    ensures FollowsWord(bits[1..], e)
  {
    if |bits| > 1 {
      assert EndsWordBit(bits[1]);
    }
  }

  /** A file with CRLF line ends says what the same file with LF line ends says. */
  lemma {:induction false} LineEndsDoNotMatter(bits: seq<Bit>, e: End)
    requires WellSpelled(bits, e)
    ensures Lex(TextOf(WithReturns(bits), e)) == Lex(TextOf(bits, e))
  {
    hide Lex, WellSpelled;
    ReturnsSpelled(bits, e);
    SpelledLexes(bits, e);
    SpelledLexes(WithReturns(bits), e);
  }

  // ---- What is printed ----

  function Indent(depth: nat): string {
    seq(depth, _ => '\t')
  }

  lemma {:induction false} TabsIndent(depth: nat)
    ensures Tabs(depth) == Indent(depth)
  {
    if depth > 0 {
      TabsIndent(depth - 1);
      assert Indent(depth) == Indent(depth - 1) + "\t";
    }
  }

  /** A value stands on a line with its name, a tab between the two quoted strings. A block's name, its opening and its
      closing brace have a line each, and what is in it stands one tab further in. */
  lemma {:induction false} PrintedInWords(name: string, value: string, children: seq<KV>, last: KV, depth: nat)
    ensures Written(Leaf(name, value), depth) == Indent(depth) + "\"" + name + "\"\t\"" + value + "\"\n"
    ensures Written(Block(name, children), depth) ==
            Indent(depth) + "\"" + name + "\"\n" + Indent(depth) + "{\n" + WrittenAll(children, depth + 1)
            + Indent(depth) + "}\n"
    ensures WrittenAll([], depth) == ""
    ensures WrittenAll(children + [last], depth) == WrittenAll(children, depth) + Written(last, depth)
  {
    hide Tabs, Indent;
    TabsIndent(depth);
    WrittenSnoc(children, last, depth);
    var ind := Tabs(depth);
    assert ind + ("\"" + name + "\"") + "\t" + ("\"" + value + "\"") + "\n"
        == ind + "\"" + name + "\"\t\"" + value + "\"\n";
    assert ind + ("\"" + name + "\"") + "\n" == ind + "\"" + name + "\"\n";
  }
}
