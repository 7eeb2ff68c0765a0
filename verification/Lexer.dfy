/** The shell's two lexers: splitting a line into commands and a command into tokens, both aware of quotes. */
module Lexer {
  import opened Wrappers

  const DOUBLE: char := '"'
  const SINGLE: char := '\''

  predicate IsQuote(c: char) {
    c == DOUBLE || c == SINGLE
  }

  /** Unicode White_Space, which is what `char::is_whitespace` tests. */
  predicate IsWhitespace(c: char) {
    var n := c as int;
    || 0x09 <= n <= 0x0D || n == 0x20 || n == 0x85 || n == 0xA0 || n == 0x1680 || 0x2000 <= n <= 0x200A
    || n == 0x2028 || n == 0x2029 || n == 0x202F || n == 0x205F || n == 0x3000
  }

  // ---- what the lexers compute ----

  /** A segment and the separator that ended it, "" for the last. */
  datatype Piece = Piece(text: string, separator: string)

  /** Split at `;` and `&&` outside quotes; `cur` is the segment so far and q the quote it is inside of. */
  function Pieces(input: string, q: Option<char>, cur: string): (r: seq<Piece>)
    ensures r != []
    decreases |input|
  {
    if input == [] then [Piece(cur, "")]
    else
      var c, rest := input[0], input[1..];
      if q.Some? then Pieces(rest, if c == q.value then None else q, cur + [c])
      else if IsQuote(c) then Pieces(rest, Some(c), cur + [c])
      else if c == ';' then [Piece(cur, ";")] + Pieces(rest, None, "")
      else if c == '&' && rest != [] && rest[0] == '&' then [Piece(cur, "&&")] + Pieces(rest[1..], None, "")
      else Pieces(rest, None, cur + [c])
  }

  function Texts(pieces: seq<Piece>): (r: seq<string>)
    ensures |r| == |pieces| && forall i :: 0 <= i < |r| ==> r[i] == pieces[i].text
  {
    if pieces == [] then [] else [pieces[0].text] + Texts(pieces[1..])
  }

  /** `split_commands` */
  function SplitCommands(input: string): seq<string> {
    Texts(Pieces(input, None, ""))
  }

  /** Quotes are dropped; outside them whitespace ends a token unless nothing has been gathered. */
  function Tokens(input: string, q: Option<char>, cur: string): seq<string>
    decreases |input|
  {
    if input == [] then (if cur == "" then [] else [cur])
    else
      var c, rest := input[0], input[1..];
      if q.Some? then (if c == q.value then Tokens(rest, None, cur) else Tokens(rest, q, cur + [c]))
      else if IsQuote(c) then Tokens(rest, Some(c), cur)
      else if IsWhitespace(c) then (if cur == "" then Tokens(rest, None, "") else [cur] + Tokens(rest, None, ""))
      else Tokens(rest, None, cur + [c])
  }

  /** `tokenize_quoted` */
  function Tokenize(input: string): seq<string> {
    Tokens(input, None, "")
  }

  lemma PieceStep(c: char, rest: string, q: Option<char>, cur: string)
    ensures Pieces([c] + rest, q, cur) ==
      if q.Some? then Pieces(rest, if c == q.value then None else q, cur + [c])
      else if IsQuote(c) then Pieces(rest, Some(c), cur + [c])
      else if c == ';' then [Piece(cur, ";")] + Pieces(rest, None, "")
      else if c == '&' && rest != [] && rest[0] == '&' then [Piece(cur, "&&")] + Pieces(rest[1..], None, "")
      else Pieces(rest, None, cur + [c])
  {
    assert ([c] + rest)[0] == c && ([c] + rest)[1..] == rest;
  }

  lemma TokenStep(c: char, rest: string, q: Option<char>, cur: string)
    ensures Tokens([c] + rest, q, cur) ==
      if q.Some? then (if c == q.value then Tokens(rest, None, cur) else Tokens(rest, q, cur + [c]))
      else if IsQuote(c) then Tokens(rest, Some(c), cur)
      else if IsWhitespace(c) then (if cur == "" then Tokens(rest, None, "") else [cur] + Tokens(rest, None, ""))
      else Tokens(rest, None, cur + [c])
  {
    assert ([c] + rest)[0] == c && ([c] + rest)[1..] == rest;
  }

  // ---- the loops ----

  method SplitCommandsLoop(input: string) returns (out: seq<string>)
    ensures out == SplitCommands(input)
  {
    hide Pieces, Texts;
    out := [];
    var inQuote: Option<char> := None;
    var start, i := 0, 0;
    assert input[0..] == input && input[0..0] == "";
    while i < |input|
      invariant start <= i <= |input|
      invariant SplitCommands(input) == out + Texts(Pieces(input[i..], inQuote, input[start..i]))
      decreases |input| - i
    {
      var ch := input[i];
      OneChar(input, i, start, inQuote);
      if inQuote.Some? {
        if ch == inQuote.value { inQuote := None; }
        i := i + 1;
      } else if IsQuote(ch) {
        inQuote := Some(ch);
        i := i + 1;
      } else if ch == ';' {
        out := out + [input[start..i]];
        start := i + 1;
        i := i + 1;
      } else if ch == '&' && i + 1 < |input| && input[i + 1] == '&' {
        out := out + [input[start..i]];
        start := i + 2;
        i := i + 2;
      } else {
        i := i + 1;
      }
    }
    LastPiece(input, inQuote, start);
    out := out + [input[start..]];
  }

  /** One step of the split, as the loop sees it. */
  lemma OneChar(input: string, i: nat, start: nat, q: Option<char>)
    requires start <= i < |input|
    ensures var ch, now := input[i], Texts(Pieces(input[i..], q, input[start..i]));
      && (q.Some? ==> now == Texts(Pieces(input[i + 1..], if ch == q.value then None else q, input[start..i + 1])))
      && (q.None? && IsQuote(ch) ==> now == Texts(Pieces(input[i + 1..], Some(ch), input[start..i + 1])))
      && (q.None? && !IsQuote(ch) && ch == ';' ==>
            now == [input[start..i]] + Texts(Pieces(input[i + 1..], None, input[i + 1..i + 1])))
      && (q.None? && !IsQuote(ch) && ch == '&' && i + 1 < |input| && input[i + 1] == '&' ==>
            now == [input[start..i]] + Texts(Pieces(input[i + 2..], None, input[i + 2..i + 2])))
      && (q.None? && !IsQuote(ch) && ch != ';' && !(ch == '&' && i + 1 < |input| && input[i + 1] == '&') ==>
            now == Texts(Pieces(input[i + 1..], None, input[start..i + 1])))
  {
    hide Pieces, Texts, IsQuote;
    var ch, cur, rest := input[i], input[start..i], input[i + 1..];
    assert input[i..] == [ch] + rest && cur + [ch] == input[start..i + 1];
    PieceStep(ch, rest, q, cur);
    assert input[i + 1..i + 1] == "";
    FirstText(Piece(cur, ";"), Pieces(rest, None, ""));
    if rest != [] {
      assert rest[1..] == input[i + 2..] && input[i + 2..i + 2] == "";
      FirstText(Piece(cur, "&&"), Pieces(rest[1..], None, ""));
    }
  }

  lemma FirstText(p: Piece, rest: seq<Piece>)
    ensures Texts([p] + rest) == [p.text] + Texts(rest)
  {
  }

  lemma LastPiece(input: string, q: Option<char>, start: nat)
    requires start <= |input|
    ensures Texts(Pieces(input[|input|..], q, input[start..|input|])) == [input[start..]]
  {
    assert input[|input|..] == "" && input[start..|input|] == input[start..];
  }

  method TokenizeLoop(input: string) returns (tokens: seq<string>)
    ensures tokens == Tokenize(input)
  {
    tokens := [];
    var current := "";
    var inQuote: Option<char> := None;
    assert input[0..] == input;
    for i := 0 to |input|
      invariant Tokenize(input) == tokens + Tokens(input[i..], inQuote, current)
    {
      var ch := input[i];
      assert input[i..][0] == ch && input[i..][1..] == input[i + 1..];
      if inQuote.Some? {
        if ch == inQuote.value { inQuote := None; } else { current := current + [ch]; }
      } else if IsQuote(ch) {
        inQuote := Some(ch);
      } else if IsWhitespace(ch) {
        if current != "" {
          tokens := tokens + [current];
          current := "";
        }
      } else {
        current := current + [ch];
      }
    }
    if current != "" { tokens := tokens + [current]; }
  }

  // ---- nothing is lost in splitting ----

  function Rebuild(pieces: seq<Piece>): string {
    if pieces == [] then "" else pieces[0].text + pieces[0].separator + Rebuild(pieces[1..])
  }

  /** Every separator but the last, empty one is one of the two. */
  predicate Separated(pieces: seq<Piece>) {
    pieces != [] &&
    if |pieces| == 1 then pieces[0].separator == ""
    else (pieces[0].separator == ";" || pieces[0].separator == "&&") && Separated(pieces[1..])
  }

  lemma Prepend(text: string, separator: string, rest: seq<Piece>, input: string)
    requires separator == ";" || separator == "&&"
    requires Rebuild(rest) == "" + input && Separated(rest)
    ensures Rebuild([Piece(text, separator)] + rest) == text + (separator + input)
    ensures Separated([Piece(text, separator)] + rest)
  {
    var p := Piece(text, separator);
    assert ([p] + rest)[1..] == rest;
    assert "" + input == input;
    assert text + separator + input == text + (separator + input);
  }

  /** For every input: the segments and the separators between them, put together, are the input. */
  lemma {:induction false} PiecesRebuild(input: string, q: Option<char>, cur: string)
    ensures Rebuild(Pieces(input, q, cur)) == cur + input && Separated(Pieces(input, q, cur))
    decreases |input|
  {
    if input == [] {
      assert Rebuild([Piece(cur, "")]) == cur + "" + "";
    } else {
      hide Pieces, Rebuild, Separated;
      var c, rest := input[0], input[1..];
      assert input == [c] + rest;
      PieceStep(c, rest, q, cur);
      if q == None && c == ';' {
        PiecesRebuild(rest, None, "");
        Prepend(cur, ";", Pieces(rest, None, ""), rest);
        assert input == ";" + rest;
      } else if q == None && c == '&' && rest != [] && rest[0] == '&' {
        PiecesRebuild(rest[1..], None, "");
        Prepend(cur, "&&", Pieces(rest[1..], None, ""), rest[1..]);
        assert input == "&&" + rest[1..];
      } else {
        var q' := if q == None && IsQuote(c) then Some(c) else if q == Some(c) then None else q;
        PiecesRebuild(rest, q', cur + [c]);
        assert cur + [c] + rest == cur + ([c] + rest);
      }
    }
  }

  // ---- writing and reading back ----

  /** The 25 white space characters of Unicode: tab to carriage return, the space and the other blanks. */
  const WHITE_SPACE: string :=
    "\t\n\U{0B}\U{0C}\r \U{85}\U{A0}\U{1680}\U{2000}\U{2001}\U{2002}\U{2003}\U{2004}\U{2005}\U{2006}\U{2007}\U{2008}\U{2009}\U{200A}\U{2028}\U{2029}\U{202F}\U{205F}\U{3000}"

  lemma WhitespaceIs(c: char)
    ensures IsWhitespace(c) <==> c in WHITE_SPACE
  {
    assert WHITE_SPACE[0] == '\t' && WHITE_SPACE[1] == '\n' && WHITE_SPACE[2] == '\U{0B}' && WHITE_SPACE[3] == '\U{0C}';
    assert WHITE_SPACE[4] == '\r' && WHITE_SPACE[5] == ' ' && WHITE_SPACE[6] == '\U{85}' && WHITE_SPACE[7] == '\U{A0}';
    if IsWhitespace(c) && c as int >= 0x1680 {
      var n := c as int;
      assert 0x2000 <= n <= 0x200A ==> WHITE_SPACE[9 + n - 0x2000] == c;
      assert WHITE_SPACE[8] == '\U{1680}' && WHITE_SPACE[20] == '\U{2028}' && WHITE_SPACE[21] == '\U{2029}';
      assert WHITE_SPACE[22] == '\U{202F}' && WHITE_SPACE[23] == '\U{205F}' && WHITE_SPACE[24] == '\U{3000}';
    }
  }

  /** Part of a word: as it is, or between quotes of either kind. */
  datatype Chunk = Bare(text: string) | InQuotes(quote: char, text: string)

  /** A word and the blanks before it. */
  datatype Word = Word(gap: string, chunks: seq<Chunk>)

  /** Words with blanks before, between and after them. */
  datatype Words = Words(words: seq<Word>, tail: string)

  predicate Blanks(t: string) {
    forall i :: 0 <= i < |t| ==> IsWhitespace(t[i])
  }

  /** Unquoted text holds no quote, no white space and no `;`, and every `&` is followed by something else. */
  predicate PlainText(t: string) {
    Unsplit(t) && forall i :: 0 <= i < |t| ==> !IsWhitespace(t[i])
  }

  predicate Unsplit(t: string) {
    && (forall i :: 0 <= i < |t| ==> t[i] != '"' && t[i] != '\'' && t[i] != ';')
    && (forall i :: 0 <= i < |t| ==> LoneAmpersand(t, i))
  }

  predicate LoneAmpersand(t: string, i: nat)
    requires i < |t|
  {
    t[i] == '&' ==> i + 1 < |t| && t[i + 1] != '&'
  }

  lemma UnsplitRest(t: string)
    requires t != "" && Unsplit(t)
    ensures Unsplit(t[1..]) && (t[0] == '&' ==> 1 < |t| && t[1] != '&')
  {
    assert LoneAmpersand(t, 0);
    forall i | 0 <= i < |t[1..]|
      ensures LoneAmpersand(t[1..], i)
    {
      assert LoneAmpersand(t, i + 1);
    }
  }

  /** Quoted text may hold anything but the quote it stands in. */
  predicate GoodChunk(c: Chunk) {
    match c
    case Bare(t) => PlainText(t)
    case InQuotes(q, t) => (q == '"' || q == '\'') && q !in t
  }

  /** Every word but the first has blanks before it. */
  predicate GoodWords(ws: Words) {
    && Blanks(ws.tail)
    && forall i :: 0 <= i < |ws.words| ==>
         Blanks(ws.words[i].gap) && (i > 0 ==> ws.words[i].gap != "") && GoodWord(ws.words[i])
  }

  predicate GoodWord(w: Word) {
    forall i :: 0 <= i < |w.chunks| ==> GoodChunk(w.chunks[i])
  }

  function ChunkText(c: Chunk): string {
    match c
    case Bare(t) => t
    case InQuotes(q, t) => [q] + t + [q]
  }

  function WordText(chunks: seq<Chunk>): string {
    if chunks == [] then "" else ChunkText(chunks[0]) + WordText(chunks[1..])
  }

  /** What a word says, its quotes taken off. */
  function Saying(chunks: seq<Chunk>): string {
    if chunks == [] then "" else chunks[0].text + Saying(chunks[1..])
  }

  function Command(words: seq<Word>, tail: string): string {
    if words == [] then tail else words[0].gap + (WordText(words[0].chunks) + Command(words[1..], tail))
  }

  /** What the words of a command say, those that say nothing left out. */
  function Sayings(words: seq<Word>): seq<string> {
    if words == [] then []
    else (if Saying(words[0].chunks) == "" then [] else [Saying(words[0].chunks)]) + Sayings(words[1..])
  }

  /** Commands with `;` or `&&` between them. */
  function CommandLine(commands: seq<Words>, ands: seq<bool>): string
    requires |commands| == |ands| + 1
  {
    var first := Command(commands[0].words, commands[0].tail);
    if ands == [] then first
    else first + ((if ands[0] then "&&" else ";") + CommandLine(commands[1..], ands[1..]))
  }

  // ---- splitting what was written ----

  lemma {:induction false} SplitOverText(t: string, rest: string, cur: string)
    requires Unsplit(t)
    ensures Pieces(t + rest, None, cur) == Pieces(rest, None, cur + t)
    decreases |t|
  {
    if t == "" {
      assert t + rest == rest && cur + t == cur;
    } else {
      var more := t[1..] + rest;
      UnsplitRest(t);
      assert t + rest == [t[0]] + more;
      PieceStep(t[0], more, None, cur);
      hide Pieces;
      SplitOverText(t[1..], rest, cur + [t[0]]);
      assert cur + [t[0]] + t[1..] == cur + t;
    }
  }

  lemma {:induction false} SplitInQuote(q: char, t: string, rest: string, cur: string)
    requires q !in t
    ensures Pieces(t + ([q] + rest), Some(q), cur) == Pieces(rest, None, cur + t + [q])
    decreases |t|
  {
    if t == "" {
      assert t + ([q] + rest) == [q] + rest && cur + t == cur;
      PieceStep(q, rest, Some(q), cur);
    } else {
      var more := t[1..] + ([q] + rest);
      assert t + ([q] + rest) == [t[0]] + more;
      PieceStep(t[0], more, Some(q), cur);
      hide Pieces;
      SplitInQuote(q, t[1..], rest, cur + [t[0]]);
      assert cur + [t[0]] + t[1..] == cur + t;
    }
  }

  lemma SplitOverChunk(c: Chunk, rest: string, cur: string)
    requires GoodChunk(c)
    ensures Pieces(ChunkText(c) + rest, None, cur) == Pieces(rest, None, cur + ChunkText(c))
  {
    hide Pieces, IsWhitespace;
    match c
    case Bare(t) => SplitOverText(t, rest, cur);
    case InQuotes(q, t) =>
      assert ChunkText(c) + rest == [q] + (t + ([q] + rest));
      PieceStep(q, t + ([q] + rest), None, cur);
      SplitInQuote(q, t, rest, cur + [q]);
      assert cur + [q] + t + [q] == cur + ChunkText(c);
  }

  lemma {:induction false} SplitOverWord(chunks: seq<Chunk>, rest: string, cur: string)
    requires forall i :: 0 <= i < |chunks| ==> GoodChunk(chunks[i])
    ensures Pieces(WordText(chunks) + rest, None, cur) == Pieces(rest, None, cur + WordText(chunks))
    decreases |chunks|
  {
    hide Pieces, GoodChunk, ChunkText;
    if chunks == [] {
      assert WordText(chunks) + rest == rest && cur + WordText(chunks) == cur;
    } else {
      var first, more := ChunkText(chunks[0]), WordText(chunks[1..]);
      assert WordText(chunks) + rest == first + (more + rest);
      SplitOverChunk(chunks[0], more + rest, cur);
      SplitOverWord(chunks[1..], rest, cur + first);
      assert cur + first + more == cur + WordText(chunks);
    }
  }

  lemma BlanksUnsplit(t: string)
    requires Blanks(t)
    ensures Unsplit(t)
  {
  }

  lemma {:induction false} SplitOverCommand(words: seq<Word>, tail: string, rest: string, cur: string)
    requires Blanks(tail) && forall i :: 0 <= i < |words| ==> Blanks(words[i].gap) && GoodWord(words[i])
    ensures Pieces(Command(words, tail) + rest, None, cur) == Pieces(rest, None, cur + Command(words, tail))
    decreases |words|
  {
    hide Pieces, Blanks, Unsplit, WordText, GoodChunk;
    if words == [] {
      BlanksUnsplit(tail);
      SplitOverText(tail, rest, cur);
    } else {
      var gap, first, more := words[0].gap, WordText(words[0].chunks), Command(words[1..], tail);
      assert Command(words, tail) + rest == gap + (first + (more + rest));
      BlanksUnsplit(gap);
      SplitOverText(gap, first + (more + rest), cur);
      SplitOverWord(words[0].chunks, more + rest, cur + gap);
      SplitOverCommand(words[1..], tail, rest, cur + gap + first);
      assert cur + gap + first + more == cur + Command(words, tail);
    }
  }

  predicate GoodCommands(commands: seq<Words>) {
    forall i :: 0 <= i < |commands| ==> GoodWords(commands[i])
  }

  /** Splitting a command line gives the commands back as written. */
  lemma {:induction false} SplitRoundTrip(commands: seq<Words>, ands: seq<bool>)
    requires |commands| == |ands| + 1 && GoodCommands(commands)
    ensures var out := SplitCommands(CommandLine(commands, ands));
      |out| == |commands| && forall i :: 0 <= i < |out| ==> out[i] == Command(commands[i].words, commands[i].tail)
    decreases |ands|
  {
    hide Pieces, Texts, Command, GoodWord, Blanks;
    var ws := commands[0];
    var first := Command(ws.words, ws.tail);
    if ands == [] {
      JustOne(first);
      SplitOverCommand(ws.words, ws.tail, "", "");
      assert first + "" == first && "" + first == first;
    } else {
      var sep, rest := if ands[0] then "&&" else ";", CommandLine(commands[1..], ands[1..]);
      SplitOverCommand(ws.words, ws.tail, sep + rest, "");
      assert "" + first == first;
      SplitAtSeparator(ands[0], first, rest);
      FirstText(Piece(first, sep), Pieces(rest, None, ""));
      SplitRoundTrip(commands[1..], ands[1..]);
    }
  }

  lemma JustOne(text: string)
    ensures Texts(Pieces("", None, text)) == [text]
  {
  }

  lemma SplitAtSeparator(isAnd: bool, first: string, rest: string)
    ensures var sep := if isAnd then "&&" else ";";
      Pieces(sep + rest, None, first) == [Piece(first, sep)] + Pieces(rest, None, "")
  {
    if isAnd {
      assert "&&" + rest == ['&'] + (['&'] + rest);
      PieceStep('&', ['&'] + rest, None, first);
      assert (['&'] + rest)[1..] == rest;
    } else {
      PieceStep(';', rest, None, first);
    }
  }

  // ---- tokenizing what was written ----

  lemma {:induction false} TokenOverText(t: string, rest: string, cur: string)
    requires PlainText(t)
    ensures Tokens(t + rest, None, cur) == Tokens(rest, None, cur + t)
    decreases |t|
  {
    if t == "" {
      assert t + rest == rest && cur + t == cur;
    } else {
      UnsplitRest(t);
      assert t + rest == [t[0]] + (t[1..] + rest);
      TokenStep(t[0], t[1..] + rest, None, cur);
      hide Tokens;
      TokenOverText(t[1..], rest, cur + [t[0]]);
      assert cur + [t[0]] + t[1..] == cur + t;
    }
  }

  lemma {:induction false} TokenInQuote(q: char, t: string, rest: string, cur: string)
    requires q !in t
    ensures Tokens(t + ([q] + rest), Some(q), cur) == Tokens(rest, None, cur + t)
    decreases |t|
  {
    hide IsWhitespace;
    if t == "" {
      assert t + ([q] + rest) == [q] + rest && cur + t == cur;
      TokenStep(q, rest, Some(q), cur);
    } else {
      var more := t[1..] + ([q] + rest);
      assert t + ([q] + rest) == [t[0]] + more;
      TokenStep(t[0], more, Some(q), cur);
      TokenInQuote(q, t[1..], rest, cur + [t[0]]);
      assert cur + [t[0]] + t[1..] == cur + t;
    }
  }

  lemma TokenOverChunk(c: Chunk, rest: string, cur: string)
    requires GoodChunk(c)
    ensures Tokens(ChunkText(c) + rest, None, cur) == Tokens(rest, None, cur + c.text)
  {
    hide Tokens, IsWhitespace;
    match c
    case Bare(t) => TokenOverText(t, rest, cur);
    case InQuotes(q, t) =>
      assert ChunkText(c) + rest == [q] + (t + ([q] + rest));
      TokenStep(q, t + ([q] + rest), None, cur);
      TokenInQuote(q, t, rest, cur);
  }

  lemma {:induction false} TokenOverWord(chunks: seq<Chunk>, rest: string, cur: string)
    requires forall i :: 0 <= i < |chunks| ==> GoodChunk(chunks[i])
    ensures Tokens(WordText(chunks) + rest, None, cur) == Tokens(rest, None, cur + Saying(chunks))
    decreases |chunks|
  {
    hide Tokens, GoodChunk, ChunkText;
    if chunks == [] {
      assert WordText(chunks) + rest == rest && cur + Saying(chunks) == cur;
    } else {
      var first, more := ChunkText(chunks[0]), WordText(chunks[1..]);
      assert WordText(chunks) + rest == first + (more + rest);
      TokenOverChunk(chunks[0], more + rest, cur);
      TokenOverWord(chunks[1..], rest, cur + chunks[0].text);
      assert cur + chunks[0].text + Saying(chunks[1..]) == cur + Saying(chunks);
    }
  }

  /** Blanks, of whatever number and kind, end the token before them. */
  lemma {:induction false} TokenOverBlanks(t: string, rest: string, cur: string)
    requires Blanks(t) && t != ""
    ensures Tokens(t + rest, None, cur) == (if cur == "" then [] else [cur]) + Tokens(rest, None, "")
    decreases |t|
  {
    assert t + rest == [t[0]] + (t[1..] + rest);
    TokenStep(t[0], t[1..] + rest, None, cur);
    hide Tokens;
    if |t| == 1 {
      assert t[1..] + rest == rest;
    } else {
      TokenOverBlanks(t[1..], rest, "");
      assert [] + Tokens(rest, None, "") == Tokens(rest, None, "");
    }
  }

  lemma TokensEnd(cur: string)
    ensures Tokens("", None, cur) == if cur == "" then [] else [cur]
  {
  }

  /** A command, read after something that is either nothing or ends where blanks begin. */
  lemma {:induction false} TokensOfWords(words: seq<Word>, tail: string, cur: string)
    requires GoodWords(Words(words, tail)) && (cur != "" ==> words == [] || words[0].gap != "")
    ensures Tokens(Command(words, tail), None, cur) == (if cur == "" then [] else [cur]) + Sayings(words)
    decreases |words|
  {
    hide Tokens, Blanks, WordText, GoodChunk, Saying;
    if words == [] {
      TokensEnd(cur);
      TokensEnd("");
      if tail != "" {
        TokenOverBlanks(tail, "", cur);
        assert tail + "" == tail;
      }
    } else {
      var w, more := words[0], Command(words[1..], tail);
      if w.gap == "" {
        assert w.gap + (WordText(w.chunks) + more) == WordText(w.chunks) + more;
      } else {
        TokenOverBlanks(w.gap, WordText(w.chunks) + more, cur);
      }
      TokenOverWord(w.chunks, more, "");
      assert "" + Saying(w.chunks) == Saying(w.chunks);
      TokensOfWords(words[1..], tail, Saying(w.chunks));
    }
  }

  /** Tokenizing a command gives what its words say, however they are quoted and however far apart. */
  lemma TokenizeRoundTrip(ws: Words)
    requires GoodWords(ws)
    ensures Tokenize(Command(ws.words, ws.tail)) == Sayings(ws.words)
  {
    TokensOfWords(ws.words, ws.tail, "");
    assert [] + Sayings(ws.words) == Sayings(ws.words);
  }

  /** Main theorem: write words with quotes of either kind around any parts of them, any blanks between them,
      and `;` or `&&` between commands: the two lexers together recover what every word of every command
      says, except for words that say nothing. */
  lemma LexersRoundTrip(commands: seq<Words>, ands: seq<bool>)
    requires |commands| == |ands| + 1 && GoodCommands(commands)
    ensures var out := SplitCommands(CommandLine(commands, ands));
      |out| == |commands| && forall i :: 0 <= i < |out| ==> Tokenize(out[i]) == Sayings(commands[i].words)
  {
    hide SplitCommands, Tokenize, CommandLine, Command, Sayings, GoodWords;
    SplitRoundTrip(commands, ands);
    forall i | 0 <= i < |commands|
      ensures Tokenize(Command(commands[i].words, commands[i].tail)) == Sayings(commands[i].words)
    {
      TokenizeRoundTrip(commands[i]);
    }
  }
}
