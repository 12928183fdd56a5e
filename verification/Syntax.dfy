/** The text of a theater: tokenizer, parser and printer, and why what is printed reads back. */
module Syntax {
  import opened Options
  import opened KeyValues

  datatype Error =
    | UnterminatedString
    | Conditional
    | EndInsideBlock
    | UnmatchedClose
    | BlockWithNoName
    | KeyWithNoValue
    | KeyThenClose
    | DoubleQuote

  datatype Result<T> = Ok(value: T) | Err(error: Error)

  datatype Token = Open | Close | Str(text: string)

  /** What the tokenizer yields before it stops, and the error it stops with, if it does not reach the end. */
  datatype Lexed = Lexed(tokens: seq<Token>, error: Option<Error>)

  // ---- Tokenizer ----

  /** str.isspace on Latin-1 text. */
  predicate IsSpace(c: char) {
    var n := c as int;
    9 <= n <= 13 || 28 <= n <= 32 || n == 133 || n == 160
  }

  predicate EndsWord(c: char) {
    IsSpace(c) || c == '{' || c == '}' || c == '"'
  }

  /** The position of the first c at or after `from`, or the length. */
  function IndexOf(s: string, c: char, from: nat): (i: nat)
    requires from <= |s|
    ensures from <= i <= |s|
    ensures i < |s| ==> s[i] == c
    ensures forall j :: from <= j < i ==> s[j] != c
    decreases |s| - from
  {
    if from == |s| || s[from] == c then from else IndexOf(s, c, from + 1)
  }

  function WordEnd(s: string, from: nat): (i: nat)
    requires from <= |s|
    ensures from <= i <= |s|
    ensures i < |s| ==> EndsWord(s[i])
    ensures forall j :: from <= j < i ==> !EndsWord(s[j])
    decreases |s| - from
  {
    if from == |s| || EndsWord(s[from]) then from else WordEnd(s, from + 1)
  }

  predicate IsComment(s: string) {
    |s| >= 2 && s[0] == '/' && s[1] == '/'
  }

  function Before(t: Token, l: Lexed): Lexed {
    Lexed([t] + l.tokens, l.error)
  }

  function Lex(s: string): Lexed
    decreases |s|
  {
    if s == "" then Lexed([], None)
    else if IsSpace(s[0]) then Lex(s[1..])
    else if IsComment(s) then Lex(s[IndexOf(s, '\n', 0)..])
    else if s[0] == '{' then Before(Open, Lex(s[1..]))
    else if s[0] == '}' then Before(Close, Lex(s[1..]))
    else if s[0] == '"' then
      var j := IndexOf(s, '"', 1);
      if j == |s| then Lexed([], Some(UnterminatedString)) else Before(Str(s[1..j]), Lex(s[j + 1..]))
    else if s[0] == '[' then Lexed([], Some(Conditional))
    else
      var j := WordEnd(s, 0);
      Before(Str(s[..j]), Lex(s[j..]))
  }

  function After(done: seq<Token>, l: Lexed): Lexed {
    Lexed(done + l.tokens, l.error)
  }

  lemma {:induction false} AfterOne(done: seq<Token>, t: Token, l: Lexed)
    ensures After(done + [t], l) == After(done, Before(t, l))
  {
  }

  lemma {:induction false} Suffix(text: string, i: nat, k: nat)
    requires i + k <= |text|
    ensures text[i..][k..] == text[i + k..]
  {
  }

  /** One turn of the tokenizer at a non-empty suffix: what it adds, and how far it moves. */
  method Turn(rest: string) returns (t: seq<Token>, k: nat, e: Option<Error>)
    requires rest != ""
    ensures e.Some? ==> t == [] && Lex(rest) == Lexed([], e)
    ensures e.None? ==> 0 < k <= |rest| && |t| <= 1 && Lex(rest) == After(t, Lex(rest[k..]))
  {
    t, k, e := [], 1, None;
    var c := rest[0];
    if IsSpace(c) {
    } else if IsComment(rest) {
      k := IndexOf(rest, '\n', 0);
    } else if c == '{' || c == '}' {
      t := [if c == '{' then Open else Close];
    } else if c == '"' {
      var j := IndexOf(rest, '"', 1);
      if j == |rest| {
        e := Some(UnterminatedString);
      } else {
        t, k := [Str(rest[1..j])], j + 1;
      }
    } else if c == '[' {
      e := Some(Conditional);
    } else {
      k := WordEnd(rest, 0);
      t := [Str(rest[..k])];
    }
  }

  method Tokens(text: string) returns (l: Lexed)
    ensures l == Lex(text)
  {
    hide Lex;
    var out: seq<Token> := [];
    var i, n := 0, |text|;
    assert text[0..] == text;
    while i < n
      invariant i <= n == |text|
      invariant After(out, Lex(text[i..])) == Lex(text)
    {
      var t, k, e := Turn(text[i..]);
      if e.Some? {
        return Lexed(out, e);
      }
      Suffix(text, i, k);
      if t != [] {
        assert t == [t[0]];
        AfterOne(out, t[0], Lex(text[i + k..]));
        out := out + t;
      }
      i := i + k;
    }
    LexEnd(text);
    l := Lexed(out, None);
  }

  lemma {:induction false} LexEnd(text: string)
    ensures Lex(text[|text|..]) == Lexed([], None)
  {
  }

  // ---- Parser ----

  datatype Parsed = Parsed(children: seq<KV>, rest: seq<Token>)

  /** The error of running out of tokens: the tokenizer's own, where it stopped with one. */
  function Out(stop: Option<Error>, e: Error): Error {
    if stop.Some? then stop.value else e
  }

  /** A list of children up to the end, or up to the brace that closes it. */
  function Parse(ts: seq<Token>, stop: Option<Error>, closing: bool): (r: Result<Parsed>)
    ensures r.Ok? ==> |r.value.rest| <= |ts| && (closing ==> |r.value.rest| < |ts|)
    decreases |ts|
  {
    if ts == [] then
      if stop.Some? || closing then Err(Out(stop, EndInsideBlock)) else Ok(Parsed([], []))
    else
      match ts[0]
      case Close => if closing then Ok(Parsed([], ts[1..])) else Err(UnmatchedClose)
      case Open => Err(BlockWithNoName)
      case Str(name) =>
        if |ts| == 1 then Err(Out(stop, KeyWithNoValue))
        else
          match ts[1]
          case Close => Err(KeyThenClose)
          case Str(value) => Onto(Leaf(name, value), Parse(ts[2..], stop, closing))
          case Open =>
            match Parse(ts[2..], stop, true)
            case Err(e) => Err(e)
            case Ok(p) => Onto(Block(name, p.children), Parse(p.rest, stop, closing))
  }

  function Onto(k: KV, r: Result<Parsed>): Result<Parsed> {
    if r.Err? then r else Ok(Parsed([k] + r.value.children, r.value.rest))
  }

  function OntoAll(ks: seq<KV>, r: Result<Parsed>): Result<Parsed> {
    if r.Err? then r else Ok(Parsed(ks + r.value.children, r.value.rest))
  }

  lemma {:induction false} OntoOne(done: seq<KV>, k: KV, r: Result<Parsed>)
    ensures OntoAll(done + [k], r) == OntoAll(done, Onto(k, r))
  {
    if r.Ok? {
      assert done + [k] + r.value.children == done + ([k] + r.value.children);
    }
  }

  lemma {:induction false} OntoNone(r: Result<Parsed>)
    ensures OntoAll([], r) == r
  {
    if r.Ok? {
      assert [] + r.value.children == r.value.children;
    }
  }

  method ParseChildren(ts: seq<Token>, stop: Option<Error>, closing: bool) returns (r: Result<Parsed>)
    ensures r == Parse(ts, stop, closing)
    decreases |ts|
  {
    var out: seq<KV> := [];
    var rest := ts;
    OntoNone(Parse(ts, stop, closing));
    while true
      invariant |rest| <= |ts|
      invariant OntoAll(out, Parse(rest, stop, closing)) == Parse(ts, stop, closing)
      decreases |rest|
    {
      if rest == [] {
        return if stop.Some? || closing then Err(Out(stop, EndInsideBlock)) else Ok(Parsed(out, []));
      }
      assert out + [] == out;
      if rest[0].Close? {
        return if closing then Ok(Parsed(out, rest[1..])) else Err(UnmatchedClose);
      }
      if rest[0].Open? {
        return Err(BlockWithNoName);
      }
      var name := rest[0].text;
      if |rest| == 1 {
        return Err(Out(stop, KeyWithNoValue));
      }
      if rest[1].Open? {
        var inner := ParseChildren(rest[2..], stop, true);
        if inner.Err? {
          return inner;
        }
        OntoOne(out, Block(name, inner.value.children), Parse(inner.value.rest, stop, closing));
        out := out + [Block(name, inner.value.children)];
        rest := inner.value.rest;
      } else if rest[1].Str? {
        OntoOne(out, Leaf(name, rest[1].text), Parse(rest[2..], stop, closing));
        out := out + [Leaf(name, rest[1].text)];
        rest := rest[2..];
      } else {
        return Err(KeyThenClose);
      }
    }
  }

  /** A file's top level. */
  function ParseText(text: string): Result<seq<KV>> {
    var l := Lex(text);
    match Parse(l.tokens, l.error, false)
    case Err(e) => Err(e)
    case Ok(p) => Ok(p.children)
  }

  // ---- Printer ----

  function Tabs(n: nat): string {
    if n == 0 then "" else Tabs(n - 1) + "\t"
  }

  function Quoted(s: string): string {
    "\"" + s + "\""
  }

  /** The lines of a tree, whatever its strings hold. */
  function Written(k: KV, depth: nat): string
    decreases k, 1
  {
    match k
    case Leaf(name, value) => Tabs(depth) + Quoted(name) + "\t" + Quoted(value) + "\n"
    case Block(name, children) =>
      Tabs(depth) + Quoted(name) + "\n" + Tabs(depth) + "{\n" + WrittenAll(children, depth + 1) + Tabs(depth) + "}\n"
  }

  function WrittenAll(ks: seq<KV>, depth: nat): string
    decreases ks, 0
  {
    if ks == [] then "" else Written(ks[0], depth) + WrittenAll(ks[1..], depth)
  }

  predicate Printable(k: KV)
    decreases k
  {
    '"' !in k.name &&
    match k
    case Leaf(_, value) => '"' !in value
    case Block(_, children) => forall i :: 0 <= i < |children| ==> Printable(children[i])
  }

  function Comment(line: string): string {
    "//" + line + "\n"
  }

  // The lines are put together from pieces, as the verifier takes only short literals apart into characters.
  const GENERATED_BY := " GENERATED by tools/" + "theater-build/build.py" + " - do not edit."
  const FLATTENED_FROM := " Flattened from theaters/src/"
  const AND_VENDORED := " and the vendored TUG" + " theaters it #bases" + " (theaters/vendor/)."
  const HOW_TO_EDIT :=
    " Edit the source and run" + " `make theater-build`;" + " `make theater-check`" + " fails while this is stale."

  function Header(file: string): string {
    Comment(GENERATED_BY) + Comment("") + Comment(FLATTENED_FROM + file + AND_VENDORED) + Comment(HOW_TO_EDIT)
  }

  function Render(file: string, root: KV): Result<string> {
    if Printable(root) then Ok(Header(file) + "\n" + Written(root, 0)) else Err(DoubleQuote)
  }

  lemma {:induction false} WrittenSnoc(ks: seq<KV>, k: KV, depth: nat)
    ensures WrittenAll(ks + [k], depth) == WrittenAll(ks, depth) + Written(k, depth)
    decreases |ks|
  {
    if ks == [] {
      assert [k][1..] == [];
    } else {
      assert (ks + [k])[1..] == ks[1..] + [k];
      WrittenSnoc(ks[1..], k, depth);
    }
  }

  method Write(k: KV, depth: nat) returns (r: Result<string>)
    ensures r == if Printable(k) then Ok(Written(k, depth)) else Err(DoubleQuote)
    decreases k
  {
    var ind := Tabs(depth);
    if '"' in k.name || (k.Leaf? && '"' in k.value) {
      return Err(DoubleQuote);
    }
    if k.Leaf? {
      return Ok(ind + Quoted(k.name) + "\t" + Quoted(k.value) + "\n");
    }
    var body := "";
    var i := 0;
    while i < |k.children|
      invariant i <= |k.children|
      invariant forall j :: 0 <= j < i ==> Printable(k.children[j])
      invariant body == WrittenAll(k.children[..i], depth + 1)
    {
      var c := Write(k.children[i], depth + 1);
      if c.Err? {
        return c;
      }
      WrittenSnoc(k.children[..i], k.children[i], depth + 1);
      assert k.children[..i + 1] == k.children[..i] + [k.children[i]];
      body := body + c.value;
      i := i + 1;
    }
    assert k.children[..i] == k.children;
    r := Ok(ind + Quoted(k.name) + "\n" + ind + "{\n" + body + ind + "}\n");
  }

  // ---- What is printed, read back ----

  lemma {:induction false} LexSpace(c: char, rest: string)
    requires IsSpace(c)
    ensures Lex([c] + rest) == Lex(rest)
  {
  }

  lemma {:induction false} LexBrace(open: bool, rest: string)
    ensures Lex((if open then "{" else "}") + rest) == Before(if open then Open else Close, Lex(rest))
  {
  }

  lemma {:induction false} FirstAt(s: string, c: char, from: nat, i: nat)
    requires from <= i < |s| && s[i] == c && forall j :: from <= j < i ==> s[j] != c
    ensures IndexOf(s, c, from) == i
  {
  }

  lemma {:induction false} LexQuoted(text: string, rest: string)
    requires '"' !in text
    ensures Lex(Quoted(text) + rest) == Before(Str(text), Lex(rest))
  {
    var s := Quoted(text) + rest;
    FirstAt(s, '"', 1, |text| + 1);
    assert s[1..|text| + 1] == text;
    assert s[|text| + 2..] == rest;
  }

  lemma {:induction false} LexComment(line: string, rest: string)
    requires '\n' !in line
    ensures Lex(Comment(line) + rest) == Lex(rest)
  {
    var s := Comment(line) + rest;
    FirstAt(s, '\n', 0, |line| + 2);
    assert s[|line| + 2..] == "\n" + rest;
    LexSpace('\n', rest);
  }

  lemma {:induction false} LexTabs(n: nat, rest: string)
    ensures Lex(Tabs(n) + rest) == Lex(rest)
  {
    if n == 0 {
      assert Tabs(n) + rest == rest;
    } else {
      assert Tabs(n) + rest == Tabs(n - 1) + ("\t" + rest);
      LexTabs(n - 1, "\t" + rest);
      LexSpace('\t', rest);
    }
  }

  function TokensOf(k: KV): seq<Token>
    decreases k, 1
  {
    match k
    case Leaf(name, value) => [Str(name), Str(value)]
    case Block(name, children) => [Str(name), Open] + TokensOfAll(children) + [Close]
  }

  function TokensOfAll(ks: seq<KV>): seq<Token>
    decreases ks, 0
  {
    if ks == [] then [] else TokensOf(ks[0]) + TokensOfAll(ks[1..])
  }

  lemma {:induction false} AfterTwice(a: seq<Token>, b: seq<Token>, l: Lexed)
    ensures After(a, After(b, l)) == After(a + b, l)
  {
  }

  lemma {:induction false} LexLeaf(name: string, value: string, depth: nat, rest: string)
    requires '"' !in name && '"' !in value
    ensures Lex(Written(Leaf(name, value), depth) + rest) == After([Str(name), Str(value)], Lex(rest))
  {
    hide Lex, Tabs;
    var s2 := "\n" + rest;
    var s1 := "\t" + (Quoted(value) + s2);
    assert Written(Leaf(name, value), depth) + rest == Tabs(depth) + (Quoted(name) + s1);
    LexTabs(depth, Quoted(name) + s1);
    LexQuoted(name, s1);
    LexSpace('\t', Quoted(value) + s2);
    LexQuoted(value, s2);
    LexSpace('\n', rest);
  }

  lemma {:induction false} LexOpening(name: string, depth: nat, rest: string)
    requires '"' !in name
    ensures Lex(Tabs(depth) + Quoted(name) + "\n" + Tabs(depth) + "{\n" + rest) == After([Str(name), Open], Lex(rest))
  {
    hide Lex, Tabs;
    var s2 := "{" + ("\n" + rest);
    var s1 := "\n" + (Tabs(depth) + s2);
    assert Tabs(depth) + Quoted(name) + "\n" + Tabs(depth) + "{\n" + rest == Tabs(depth) + (Quoted(name) + s1);
    LexTabs(depth, Quoted(name) + s1);
    LexQuoted(name, s1);
    LexSpace('\n', Tabs(depth) + s2);
    LexTabs(depth, s2);
    LexBrace(true, "\n" + rest);
    LexSpace('\n', rest);
  }

  lemma {:induction false} LexClosing(depth: nat, rest: string)
    ensures Lex(Tabs(depth) + "}\n" + rest) == After([Close], Lex(rest))
  {
    hide Lex, Tabs;
    assert Tabs(depth) + "}\n" + rest == Tabs(depth) + ("}" + ("\n" + rest));
    LexTabs(depth, "}" + ("\n" + rest));
    LexBrace(false, "\n" + rest);
    LexSpace('\n', rest);
  }

  /** The tokenizer yields a printed tree's own tokens. */
  lemma {:induction false} LexWritten(k: KV, depth: nat, rest: string)
    requires Printable(k)
    ensures Lex(Written(k, depth) + rest) == After(TokensOf(k), Lex(rest))
    decreases k, 1
  {
    hide Lex;
    match k
    case Leaf(name, value) => LexLeaf(name, value, depth, rest);
    case Block(name, children) =>
      var s2 := Tabs(depth) + "}\n" + rest;
      var s1 := WrittenAll(children, depth + 1) + s2;
      assert Written(k, depth) + rest == Tabs(depth) + Quoted(name) + "\n" + Tabs(depth) + "{\n" + s1;
      LexOpening(name, depth, s1);
      LexWrittenAll(children, depth + 1, s2);
      LexClosing(depth, rest);
      AfterTwice(TokensOfAll(children), [Close], Lex(rest));
      AfterTwice([Str(name), Open], TokensOfAll(children) + [Close], Lex(rest));
      assert TokensOf(k) == [Str(name), Open] + (TokensOfAll(children) + [Close]);
  }

  lemma {:induction false} LexWrittenAll(ks: seq<KV>, depth: nat, rest: string)
    requires forall i :: 0 <= i < |ks| ==> Printable(ks[i])
    ensures Lex(WrittenAll(ks, depth) + rest) == After(TokensOfAll(ks), Lex(rest))
    decreases ks, 0
  {
    hide Lex;
    if ks == [] {
      assert WrittenAll(ks, depth) + rest == rest;
    } else {
      var tail := WrittenAll(ks[1..], depth) + rest;
      assert WrittenAll(ks, depth) + rest == Written(ks[0], depth) + tail;
      LexWritten(ks[0], depth, tail);
      LexWrittenAll(ks[1..], depth, rest);
      AfterTwice(TokensOf(ks[0]), TokensOfAll(ks[1..]), Lex(rest));
    }
  }

  /** The parser rebuilds a tree from its tokens. */
  lemma {:induction false} ParseTokens(k: KV, rest: seq<Token>, stop: Option<Error>, closing: bool)
    ensures Parse(TokensOf(k) + rest, stop, closing) == Onto(k, Parse(rest, stop, closing))
    decreases k, 1
  {
    var ts := TokensOf(k) + rest;
    match k
    case Leaf(name, value) =>
      assert ts[2..] == rest;
    case Block(name, children) =>
      var tail := [Close] + rest;
      assert ts[2..] == TokensOfAll(children) + tail;
      ParseAll(children, tail, stop, true);
      assert tail[1..] == rest;
      assert Parse(tail, stop, true) == Ok(Parsed([], rest));
      assert children + [] == children;
      assert Parse(ts[2..], stop, true) == Ok(Parsed(children, rest));
  }

  lemma {:induction false} ParseAll(ks: seq<KV>, rest: seq<Token>, stop: Option<Error>, closing: bool)
    ensures Parse(TokensOfAll(ks) + rest, stop, closing) == OntoAll(ks, Parse(rest, stop, closing))
    decreases ks, 0
  {
    hide Parse;
    var r := Parse(rest, stop, closing);
    if ks == [] {
      assert TokensOfAll(ks) + rest == rest;
      OntoNone(r);
    } else {
      assert TokensOfAll(ks) + rest == TokensOf(ks[0]) + (TokensOfAll(ks[1..]) + rest);
      ParseTokens(ks[0], TokensOfAll(ks[1..]) + rest, stop, closing);
      ParseAll(ks[1..], rest, stop, closing);
      if r.Ok? {
        assert [ks[0]] + (ks[1..] + r.value.children) == ks + r.value.children;
      }
    }
  }

  lemma {:induction false} FirstLine()
    ensures '\n' !in GENERATED_BY
  {
  }

  lemma {:induction false} ThirdLine()
    ensures '\n' !in FLATTENED_FROM && '\n' !in AND_VENDORED
  {
  }

  lemma {:induction false} FourthLine()
    ensures '\n' !in HOW_TO_EDIT
  {
  }

  lemma {:induction false} OneLine(a: string, b: string, c: string, d: string)
    ensures '\n' !in a && '\n' !in b && '\n' !in c && '\n' !in d ==> '\n' !in a + b + c && '\n' !in a + b + c + d
  {
  }

  lemma {:induction false} LexHeader(file: string, rest: string)
    requires '\n' !in file
    ensures Lex(Header(file) + "\n" + rest) == Lex(rest)
  {
    hide Lex, Comment;
    FirstLine();
    ThirdLine();
    FourthLine();
    var line := FLATTENED_FROM + file + AND_VENDORED;
    var s4 := "\n" + rest;
    var s3 := Comment(HOW_TO_EDIT) + s4;
    var s2 := Comment(line) + s3;
    var s1 := Comment("") + s2;
    assert Header(file) + "\n" + rest == Comment(GENERATED_BY) + s1;
    LexComment(GENERATED_BY, s1);
    LexComment("", s2);
    LexComment(line, s3);
    LexComment(HOW_TO_EDIT, s4);
    LexSpace('\n', rest);
    assert ['\n'] + rest == s4;
  }

  /** Parsing undoes printing: whatever is rendered under a file name without a line break reads back as
      exactly the one tree that was rendered, and rendering fails exactly where a string holds a quote. */
  lemma {:induction false} RenderedReadsBack(file: string, root: KV)
    requires '\n' !in file
    ensures Render(file, root).Ok? <==> Printable(root)
    ensures Render(file, root).Ok? ==> ParseText(Render(file, root).value) == Ok([root])
  {
    hide Lex, Parse, Header;
    if Printable(root) {
      var w := Written(root, 0);
      LexHeader(file, w);
      assert w + "" == w;
      LexWritten(root, 0, "");
      assert TokensOf(root) + [] == TokensOf(root);
      ParseTokens(root, [], None, false);
      LexParseEmpty();
      assert [root] + [] == [root];
      assert Lex(Header(file) + "\n" + w) == Lexed(TokensOf(root), None);
      assert Parse(TokensOf(root), None, false) == Ok(Parsed([root], []));
    }
  }

  lemma {:induction false} LexParseEmpty()
    ensures Lex("") == Lexed([], None)
    ensures Parse([], None, false) == Ok(Parsed([], []))
  {
  }
}
