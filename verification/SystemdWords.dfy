/** Words of a service command line: splitting what systemctl prints, and quoting for a unit. */
module SystemdWords {
  import opened Options

  /** The source works on bytes. */
  type Byte = c: char | c as int < 256

  type Word = seq<Byte>

  function HexDigit(c: Byte): Option<nat> {
    if '0' <= c <= '9' then Some(c as int - '0' as int)
    else if 'a' <= c <= 'f' then Some(c as int - 'a' as int + 10)
    else if 'A' <= c <= 'F' then Some(c as int - 'A' as int + 10)
    else None
  }

  function HexByte(high: Byte, low: Byte): (b: Option<Byte>)
    ensures b.Some? ==> b.value != '\0'
  {
    var h, l := HexDigit(high), HexDigit(low);
    if h.None? || l.None? || 16 * h.value + l.value == 0 then None else Some((16 * h.value + l.value) as char)
  }

  const ESCAPABLE: seq<Byte> := ['\\', '"', '\'', ' ']

  /** What is left after a backslash: the byte it stands for and how much of the text it takes. */
  function Escape(s: seq<Byte>): (r: Option<(Byte, nat)>)
    ensures r.Some? ==> 1 <= r.value.1 <= |s| && r.value.0 != '\0'
  {
    if s == [] then None
    else if s[0] == 'x' then
      if |s| < 3 || HexByte(s[1], s[2]).None? then None else Some((HexByte(s[1], s[2]).value, 3))
    else if s[0] in ESCAPABLE then Some((s[0], 1))
    else None
  }

  /** The words of the rest of the text, after `words` complete ones and a part of the next. */
  function Scanned(s: seq<Byte>, words: seq<Word>, token: Word, quote: Option<Byte>, started: bool): Option<seq<Word>>
    decreases |s|
  {
    if s == [] then
      if quote.Some? then None else Some(if started then words + [token] else words)
    else
      var c, rest := s[0], s[1..];
      if c == '\\' then
        var e := Escape(rest);
        if e.None? then None else Scanned(rest[e.value.1..], words, token + [e.value.0], quote, true)
      else if (c == '"' || c == '\'') && quote.None? then Scanned(rest, words, token, Some(c), true)
      else if (c == '"' || c == '\'') && quote == Some(c) then Scanned(rest, words, token, None, started)
      else if quote.None? && (c == ' ' || c == '\t') then
        Scanned(rest, if started then words + [token] else words, [], None, false)
      else if c == '\n' || c == '\0' then None
      else Scanned(rest, words, token + [c], quote, true)
  }

  /** None is an error. */
  function Split(s: seq<Byte>): Option<seq<Word>> {
    Scanned(s, [], [], None, false)
  }

  /** The words of a printed command line, or an error. */
  method SplitWords(value: seq<Byte>) returns (words: Option<seq<Word>>)
    ensures words == Split(value)
    ensures words.Some? ==> forall w :: w in words.value ==> '\0' !in w
  {
    var args: seq<Word>, token: Word := [], [];
    var quote: Option<Byte> := None;
    var started := false;
    var i := 0;
    while i < |value|
      invariant 0 <= i <= |value|
      invariant Scanned(value[i..], args, token, quote, started) == Split(value)
      invariant !started ==> token == []
      invariant '\0' !in token && forall w :: w in args ==> '\0' !in w
    {
      var c := value[i];
      assert value[i..][1..] == value[i + 1..];
      if c == '\\' {
        if i + 1 >= |value| { return None; }
        i := i + 1;
        c := value[i];
        if c == 'x' {
          if i + 2 >= |value| { return None; }
          var n := HexByte(value[i + 1], value[i + 2]);
          if n.None? { return None; }
          token := token + [n.value];
          assert value[i..][3..] == value[i + 3..];
          i := i + 2;
        } else if c in ESCAPABLE {
          token := token + [c];
          assert value[i..][1..] == value[i + 1..];
        } else {
          return None;
        }
        started := true;
        i := i + 1;
        continue;
      }
      i := i + 1;
      if c == '"' || c == '\'' {
        if quote.None? {
          quote, started := Some(c), true;
          continue;
        }
        if quote.value == c {
          quote := None;
          continue;
        }
      }
      if quote.None? && (c == ' ' || c == '\t') {
        if started { args, token, started := args + [token], [], false; }
        continue;
      }
      if c == '\n' || c == '\0' { return None; }
      token := token + [c];
      started := true;
    }
    if quote.Some? { return None; }
    if started { args := args + [token]; }
    words := Some(args);
  }

  // ---- quoting -----------------------------------------------------------------------------

  function ReplaceAll(s: seq<Byte>, from: Byte, to: seq<Byte>): seq<Byte> {
    if s == [] then [] else (if s[0] == from then to else [s[0]]) + ReplaceAll(s[1..], from, to)
  }

  /** Backslashes first, so that the quotes' own backslashes stay single. */
  function Replaced(s: Word): seq<Byte> {
    var escaped := ReplaceAll(ReplaceAll(s, '\\', ['\\', '\\']), '"', ['\\', '"']);
    ReplaceAll(ReplaceAll(escaped, '%', ['%', '%']), '$', ['$', '$'])
  }

  function UnitQuote(s: Word): seq<Byte> {
    ['"'] + Replaced(s) + ['"']
  }

  function DoubledByte(c: Byte): seq<Byte> {
    if c == '%' || c == '$' then [c, c] else [c]
  }

  /** What a word becomes for systemd, which reads `%%` and `$$` as the plain characters. */
  function Doubled(s: Word): Word {
    if s == [] then [] else DoubledByte(s[0]) + Doubled(s[1..])
  }

  function EscapedByte(c: Byte): seq<Byte> {
    if c == '\\' || c == '"' then ['\\', c] else DoubledByte(c)
  }

  function Escaped(s: Word): seq<Byte> {
    if s == [] then [] else EscapedByte(s[0]) + Escaped(s[1..])
  }

  lemma {:induction false} ReplaceAllConcat(a: seq<Byte>, b: seq<Byte>, from: Byte, to: seq<Byte>)
    ensures ReplaceAll(a + b, from, to) == ReplaceAll(a, from, to) + ReplaceAll(b, from, to)
  {
    if a == [] {
      assert a + b == b;
    } else {
      assert (a + b)[1..] == a[1..] + b;
      ReplaceAllConcat(a[1..], b, from, to);
    }
  }

  lemma ReplaceAllInPair(a: Byte, b: Byte, from: Byte, to: seq<Byte>)
    ensures ReplaceAll([a], from, to) == if a == from then to else [a]
    ensures ReplaceAll([a, b], from, to) == (if a == from then to else [a]) + (if b == from then to else [b])
  {
    ReplaceAllConcat([a], [b], from, to);
    assert [a, b] == [a] + [b];
  }

  lemma ReplacedConcat(a: Word, b: Word)
    ensures Replaced(a + b) == Replaced(a) + Replaced(b)
  {
    ReplaceAllConcat(a, b, '\\', ['\\', '\\']);
    var a1, b1 := ReplaceAll(a, '\\', ['\\', '\\']), ReplaceAll(b, '\\', ['\\', '\\']);
    ReplaceAllConcat(a1, b1, '"', ['\\', '"']);
    var a2, b2 := ReplaceAll(a1, '"', ['\\', '"']), ReplaceAll(b1, '"', ['\\', '"']);
    ReplaceAllConcat(a2, b2, '%', ['%', '%']);
    ReplaceAllConcat(ReplaceAll(a2, '%', ['%', '%']), ReplaceAll(b2, '%', ['%', '%']), '$', ['$', '$']);
  }

  lemma ReplacedByte(c: Byte)
    ensures Replaced([c]) == EscapedByte(c)
  {
    ReplaceAllInPair(c, c, '\\', ['\\', '\\']);
    ReplaceAllInPair(c, c, '"', ['\\', '"']);
    ReplaceAllInPair(c, c, '%', ['%', '%']);
    ReplaceAllInPair(c, c, '$', ['$', '$']);
    ReplaceAllInPair('\\', c, '%', ['%', '%']);
    ReplaceAllInPair('\\', c, '$', ['$', '$']);
  }

  /** The four replacements in a row do not disturb each other. */
  lemma {:induction false} ReplacedIsBytewise(s: Word)
    ensures Replaced(s) == Escaped(s)
  {
    if s != [] {
      assert s == [s[0]] + s[1..];
      ReplacedConcat([s[0]], s[1..]);
      ReplacedByte(s[0]);
      ReplacedIsBytewise(s[1..]);
    }
  }

  // ---- quote, then split -------------------------------------------------------------------

  predicate Plain(s: Word) {
    '\n' !in s && '\0' !in s
  }

  lemma InsideQuotesByte(c: Byte, more: seq<Byte>, words: seq<Word>, token: Word)
    ensures Scanned(EscapedByte(c) + more, words, token, Some('"'), true)
         == if c == '\n' || c == '\0' then None else Scanned(more, words, token + DoubledByte(c), Some('"'), true)
  {
    var text := EscapedByte(c) + more;
    if c == '\\' || c == '"' {
      assert text[1..] == [c] + more && text[1..][1..] == more;
    } else if c == '%' || c == '$' {
      assert text[1..] == [c] + more && text[1..][1..] == more;
      assert token + DoubledByte(c) == token + [c] + [c];
    } else {
      assert text[1..] == more;
    }
  }

  /** Inside the quotes every byte comes back, or the first newline or NUL is refused. */
  lemma {:induction false} InsideQuotes(s: Word, rest: seq<Byte>, words: seq<Word>, token: Word)
    ensures Scanned(Escaped(s) + rest, words, token, Some('"'), true)
         == if Plain(s) then Scanned(rest, words, token + Doubled(s), Some('"'), true) else None
  {
    hide Scanned;
    if s == [] {
      assert Escaped(s) + rest == rest && token + Doubled(s) == token;
    } else {
      var c := s[0];
      assert s == [c] + s[1..];
      InsideQuotesByte(c, Escaped(s[1..]) + rest, words, token);
      InsideQuotes(s[1..], rest, words, token + DoubledByte(c));
      assert Escaped(s) + rest == EscapedByte(c) + (Escaped(s[1..]) + rest);
      assert token + DoubledByte(c) + Doubled(s[1..]) == token + Doubled(s);
    }
  }

  lemma QuotedWord(s: Word, rest: seq<Byte>, words: seq<Word>)
    ensures Scanned(UnitQuote(s) + rest, words, [], None, false)
         == if Plain(s) then Scanned(rest, words, Doubled(s), None, true) else None
  {
    ReplacedIsBytewise(s);
    var text := UnitQuote(s) + rest;
    assert text[0] == '"' && text[1..] == Escaped(s) + (['"'] + rest);
    InsideQuotes(s, ['"'] + rest, words, []);
    assert (['"'] + rest)[1..] == rest && [] + Doubled(s) == Doubled(s);
  }

  /** The arguments of a unit's command line. */
  function CommandLine(args: seq<Word>): seq<Byte> {
    if args == [] then [] else if |args| == 1 then UnitQuote(args[0])
    else UnitQuote(args[0]) + [' '] + CommandLine(args[1..])
  }

  function DoubledAll(args: seq<Word>): seq<Word> {
    if args == [] then [] else [Doubled(args[0])] + DoubledAll(args[1..])
  }

  lemma {:induction false} CommandLineWords(args: seq<Word>, words: seq<Word>)
    ensures Scanned(CommandLine(args), words, [], None, false)
         == if forall a :: a in args ==> Plain(a) then Some(words + DoubledAll(args)) else None
  {
    if |args| == 0 {
      assert words + DoubledAll(args) == words;
    } else if |args| == 1 {
      QuotedWord(args[0], [], words);
      assert UnitQuote(args[0]) + [] == CommandLine(args) && args == [args[0]];
      assert DoubledAll(args) == [Doubled(args[0])];
    } else {
      var rest := [' '] + CommandLine(args[1..]);
      QuotedWord(args[0], rest, words);
      assert UnitQuote(args[0]) + rest == CommandLine(args);
      assert rest[1..] == CommandLine(args[1..]) && args == [args[0]] + args[1..];
      CommandLineWords(args[1..], words + [Doubled(args[0])]);
      assert words + [Doubled(args[0])] + DoubledAll(args[1..]) == words + DoubledAll(args);
    }
  }

  /** Splitting a quoted command line gives the arguments back, each percent and dollar sign
      doubled, exactly when none of them contains a newline or a NUL. */
  lemma QuoteThenSplit(args: seq<Word>)
    ensures Split(CommandLine(args)) == Some(DoubledAll(args)) <==> forall a :: a in args ==> Plain(a)
    ensures (exists a :: a in args && !Plain(a)) ==> Split(CommandLine(args)) == None
  {
    CommandLineWords(args, []);
    assert [] + DoubledAll(args) == DoubledAll(args);
  }

  /** Doubling loses nothing, so different arguments give different command lines. */
  lemma {:induction false} DoubledIsInjective(s: Word, t: Word)
    ensures Doubled(s) == Doubled(t) ==> s == t
  {
    if s != [] && t != [] && Doubled(s) == Doubled(t) {
      var n := if s[0] == '%' || s[0] == '$' then 2 else 1;
      assert Doubled(s)[0] == s[0] && Doubled(t)[0] == t[0];
      assert Doubled(s[1..]) == Doubled(s)[n..] == Doubled(t)[n..] == Doubled(t[1..]);
      DoubledIsInjective(s[1..], t[1..]);
      assert s == [s[0]] + s[1..] && t == [t[0]] + t[1..];
    }
  }

  // ---- the language of command lines -------------------------------------------------------

  /** One byte of a word: itself, after a backslash, or as two hexadecimal digits. */
  datatype Atom = Literal(c: Byte) | Backslashed(c: Byte) | Hex(c: Byte, upper: bool)

  function Digit(n: nat, upper: bool): Byte
    requires n < 16
  {
    if n < 10 then ('0' as int + n) as char
    else if upper then ('A' as int + n - 10) as char
    else ('a' as int + n - 10) as char
  }

  function AtomText(a: Atom): seq<Byte> {
    match a
    case Literal(c) => [c]
    case Backslashed(c) => ['\\', c]
    case Hex(c, upper) => ['\\', 'x', Digit(c as int / 16, upper), Digit(c as int % 16, upper)]
  }

  /** Inside quotes only the same quote, a backslash and line ends are special; outside, both quotes
      and blanks are as well. */
  predicate AtomOk(a: Atom, quote: Option<Byte>) {
    match a
    case Literal(c) =>
      && c != '\\' && c != '\n' && c != '\0'
      && if quote.Some? then c != quote.value else c != '"' && c != '\'' && c != ' ' && c != '\t'
    case Backslashed(c) => c == '\\' || c == '"' || c == '\'' || c == ' '
    case Hex(c, _) => c != '\0'
  }

  function AtomsText(atoms: seq<Atom>): seq<Byte> {
    if atoms == [] then [] else AtomText(atoms[0]) + AtomsText(atoms[1..])
  }

  function AtomsWord(atoms: seq<Atom>): Word {
    if atoms == [] then [] else [atoms[0].c] + AtomsWord(atoms[1..])
  }

  /** A word is made of bare bytes and quoted stretches, which may be empty. */
  datatype Piece = Bare(atom: Atom) | Quoted(quote: Byte, atoms: seq<Atom>)

  predicate PieceOk(p: Piece) {
    match p
    case Bare(a) => AtomOk(a, None)
    case Quoted(q, atoms) => (q == '"' || q == '\'') && forall a :: a in atoms ==> AtomOk(a, Some(q))
  }

  function PieceText(p: Piece): seq<Byte> {
    if p.Bare? then AtomText(p.atom) else [p.quote] + AtomsText(p.atoms) + [p.quote]
  }

  function PieceWord(p: Piece): Word {
    if p.Bare? then [p.atom.c] else AtomsWord(p.atoms)
  }

  function PiecesText(pieces: seq<Piece>): seq<Byte> {
    if pieces == [] then [] else PieceText(pieces[0]) + PiecesText(pieces[1..])
  }

  function PiecesWord(pieces: seq<Piece>): Word {
    if pieces == [] then [] else PieceWord(pieces[0]) + PiecesWord(pieces[1..])
  }

  /** A word and the blanks after it. */
  datatype Spaced = Spaced(pieces: seq<Piece>, blanks: seq<Byte>)

  predicate Blank(s: seq<Byte>) {
    forall c :: c in s ==> c == ' ' || c == '\t'
  }

  /** Only the last word may stand without blanks after it. */
  predicate LineOk(line: seq<Spaced>) {
    forall i :: 0 <= i < |line| ==>
      && line[i].pieces != [] && (forall p :: p in line[i].pieces ==> PieceOk(p))
      && Blank(line[i].blanks) && (i < |line| - 1 ==> line[i].blanks != [])
  }

  function LineText(line: seq<Spaced>): seq<Byte> {
    if line == [] then [] else PiecesText(line[0].pieces) + line[0].blanks + LineText(line[1..])
  }

  function LineWords(line: seq<Spaced>): seq<Word> {
    if line == [] then [] else [PiecesWord(line[0].pieces)] + LineWords(line[1..])
  }

  lemma HexComesBack(c: Byte, upper: bool)
    requires c != '\0'
    ensures HexByte(Digit(c as int / 16, upper), Digit(c as int % 16, upper)) == Some(c)
  {
  }

  lemma AtomScanned(a: Atom, rest: seq<Byte>, words: seq<Word>, token: Word, quote: Option<Byte>, started: bool)
    requires AtomOk(a, quote) && (quote.Some? ==> quote == Some('"') || quote == Some('\''))
    ensures Scanned(AtomText(a) + rest, words, token, quote, started)
         == Scanned(rest, words, token + [a.c], quote, true)
  {
    var text := AtomText(a) + rest;
    match a
    case Literal(c) => assert text[1..] == rest;
    case Backslashed(c) => assert text[1..] == [c] + rest && text[1..][1..] == rest;
    case Hex(c, upper) =>
      HexComesBack(c, upper);
      assert text[1..][0] == 'x' && text[1..][1] == AtomText(a)[2] && text[1..][2] == AtomText(a)[3];
      assert text[1..][3..] == rest;
  }

  lemma {:induction false} AtomsScanned(atoms: seq<Atom>, rest: seq<Byte>, words: seq<Word>, token: Word, quote: Byte)
    requires (quote == '"' || quote == '\'') && forall a :: a in atoms ==> AtomOk(a, Some(quote))
    ensures Scanned(AtomsText(atoms) + rest, words, token, Some(quote), true)
         == Scanned(rest, words, token + AtomsWord(atoms), Some(quote), true)
  {
    hide Scanned, AtomText, AtomOk;
    var more := AtomsText(if atoms == [] then [] else atoms[1..]) + rest;
    if atoms == [] {
      assert AtomsText(atoms) + rest == rest && token + AtomsWord(atoms) == token;
    } else {
      AtomScanned(atoms[0], more, words, token, Some(quote), true);
      assert AtomsText(atoms) + rest == AtomText(atoms[0]) + more;
      AtomsScanned(atoms[1..], rest, words, token + [atoms[0].c], quote);
      assert token + [atoms[0].c] + AtomsWord(atoms[1..]) == token + AtomsWord(atoms);
    }
  }

  lemma QuotedScanned(quote: Byte, atoms: seq<Atom>, rest: seq<Byte>, words: seq<Word>, token: Word, started: bool)
    requires (quote == '"' || quote == '\'') && forall a :: a in atoms ==> AtomOk(a, Some(quote))
    ensures Scanned([quote] + AtomsText(atoms) + [quote] + rest, words, token, None, started)
         == Scanned(rest, words, token + AtomsWord(atoms), None, true)
  {
    var text := [quote] + AtomsText(atoms) + [quote] + rest;
    assert text[0] == quote && text[1..] == AtomsText(atoms) + ([quote] + rest);
    AtomsScanned(atoms, [quote] + rest, words, token, quote);
    assert ([quote] + rest)[1..] == rest;
  }

  lemma PieceScanned(p: Piece, rest: seq<Byte>, words: seq<Word>, token: Word, started: bool)
    requires PieceOk(p)
    ensures Scanned(PieceText(p) + rest, words, token, None, started)
         == Scanned(rest, words, token + PieceWord(p), None, true)
  {
    hide Scanned, AtomText, AtomsText;
    if p.Bare? {
      AtomScanned(p.atom, rest, words, token, None, started);
    } else {
      QuotedScanned(p.quote, p.atoms, rest, words, token, started);
    }
  }

  lemma {:induction false} PiecesScanned(pieces: seq<Piece>, rest: seq<Byte>, words: seq<Word>, token: Word,
                                         started: bool)
    requires forall p :: p in pieces ==> PieceOk(p)
    ensures Scanned(PiecesText(pieces) + rest, words, token, None, started)
         == Scanned(rest, words, token + PiecesWord(pieces), None, started || pieces != [])
  {
    hide Scanned, PieceText, PieceWord, PieceOk;
    if pieces == [] {
      assert PiecesText(pieces) + rest == rest && token + PiecesWord(pieces) == token;
    } else {
      var p, more := pieces[0], PiecesText(pieces[1..]) + rest;
      PieceScanned(p, more, words, token, started);
      assert PiecesText(pieces) + rest == PieceText(p) + more;
      PiecesScanned(pieces[1..], rest, words, token + PieceWord(p), true);
      assert token + PieceWord(p) + PiecesWord(pieces[1..]) == token + PiecesWord(pieces);
    }
  }

  lemma {:induction false} BlanksScanned(blanks: seq<Byte>, rest: seq<Byte>, words: seq<Word>, token: Word,
                                         started: bool)
    requires Blank(blanks) && (!started ==> token == [])
    ensures Scanned(blanks + rest, words, token, None, started)
         == if blanks == [] then Scanned(rest, words, token, None, started)
            else Scanned(rest, if started then words + [token] else words, [], None, false)
  {
    if blanks == [] {
      assert blanks + rest == rest;
    } else {
      assert (blanks + rest)[1..] == blanks[1..] + rest && blanks[0] in blanks;
      assert forall c :: c in blanks[1..] ==> c in blanks;
      BlanksScanned(blanks[1..], rest, if started then words + [token] else words, [], false);
    }
  }

  lemma {:induction false} LineScanned(line: seq<Spaced>, words: seq<Word>)
    requires LineOk(line)
    ensures Scanned(LineText(line), words, [], None, false) == Some(words + LineWords(line))
  {
    if line == [] {
      assert words + LineWords(line) == words;
    } else {
      var w, rest := line[0], LineText(line[1..]);
      PiecesScanned(w.pieces, w.blanks + rest, words, [], false);
      assert LineText(line) == PiecesText(w.pieces) + (w.blanks + rest);
      var word := PiecesWord(w.pieces);
      assert [] + word == word;
      BlanksScanned(w.blanks, rest, words, word, true);
      assert LineOk(line[1..]) by {
        assert forall i :: 0 <= i < |line[1..]| ==> line[1..][i] == line[i + 1];
      }
      LineScanned(line[1..], words + [word]);
      assert words + [word] + LineWords(line[1..]) == words + LineWords(line);
      if w.blanks == [] {
        assert line[1..] == [] && rest == [];
      }
    }
  }

  /** What a command line means, read off how it is written: bare bytes, backslashes, hexadecimal
      escapes, quotes of both kinds and blanks in any combination. */
  lemma SplitMeans(before: seq<Byte>, line: seq<Spaced>)
    requires Blank(before) && LineOk(line)
    ensures Split(before + LineText(line)) == Some(LineWords(line))
  {
    BlanksScanned(before, LineText(line), [], [], false);
    LineScanned(line, []);
    assert [] + LineWords(line) == LineWords(line);
  }

  /** No accepted line holds a newline or a NUL, quoted or not. */
  lemma {:induction false} NoLineEnds(s: seq<Byte>, words: seq<Word>, token: Word, quote: Option<Byte>, started: bool)
    requires quote.Some? ==> quote == Some('"') || quote == Some('\'')
    requires Scanned(s, words, token, quote, started).Some?
    ensures '\n' !in s && '\0' !in s
    decreases |s|
  {
    if s != [] {
      var c, rest := s[0], s[1..];
      assert s == [c] + rest;
      if c == '\\' {
        var e := Escape(rest).value;
        assert rest == rest[..e.1] + rest[e.1..];
        NoLineEnds(rest[e.1..], words, token + [e.0], quote, true);
      } else if (c == '"' || c == '\'') && quote.None? {
        NoLineEnds(rest, words, token, Some(c), true);
      } else if (c == '"' || c == '\'') && quote == Some(c) {
        NoLineEnds(rest, words, token, None, started);
      } else if quote.None? && (c == ' ' || c == '\t') {
        NoLineEnds(rest, if started then words + [token] else words, [], None, false);
      } else {
        NoLineEnds(rest, words, token + [c], quote, true);
      }
    }
  }

  // ---- joining accepted lines --------------------------------------------------------------

  lemma {:induction false} WordsAccumulate(s: seq<Byte>, before: seq<Word>, words: seq<Word>, token: Word,
                                           quote: Option<Byte>, started: bool)
    ensures Scanned(s, before + words, token, quote, started)
         == match Scanned(s, words, token, quote, started) case None => None case Some(all) => Some(before + all)
    decreases |s|
  {
    if s == [] {
      assert before + (words + [token]) == before + words + [token];
    } else {
      var c, rest := s[0], s[1..];
      if c == '\\' {
        var e := Escape(rest);
        if e.Some? { WordsAccumulate(rest[e.value.1..], before, words, token + [e.value.0], quote, true); }
      } else if (c == '"' || c == '\'') && quote.None? {
        WordsAccumulate(rest, before, words, token, Some(c), true);
      } else if (c == '"' || c == '\'') && quote == Some(c) {
        WordsAccumulate(rest, before, words, token, None, started);
      } else if quote.None? && (c == ' ' || c == '\t') {
        WordsAccumulate(rest, before, if started then words + [token] else words, [], None, false);
        assert before + (words + [token]) == before + words + [token];
      } else {
        WordsAccumulate(rest, before, words, token + [c], quote, true);
      }
    }
  }

  lemma {:induction false} ScannedThenSpace(s: seq<Byte>, rest: seq<Byte>, words: seq<Word>, token: Word,
                                            quote: Option<Byte>, started: bool)
    requires Scanned(s, words, token, quote, started).Some? && (!started ==> token == [])
    ensures Scanned(s + [' '] + rest, words, token, quote, started)
         == Scanned(rest, Scanned(s, words, token, quote, started).value, [], None, false)
    decreases |s|
  {
    var text := s + [' '] + rest;
    if s == [] {
      assert text[1..] == rest;
    } else {
      var c, more := s[0], s[1..];
      assert text[1..] == more + [' '] + rest;
      if c == '\\' {
        var e := Escape(more).value;
        assert Escape(text[1..]) == Some(e) && text[1..][e.1..] == more[e.1..] + [' '] + rest;
        ScannedThenSpace(more[e.1..], rest, words, token + [e.0], quote, true);
      } else if (c == '"' || c == '\'') && quote.None? {
        ScannedThenSpace(more, rest, words, token, Some(c), true);
      } else if (c == '"' || c == '\'') && quote == Some(c) {
        ScannedThenSpace(more, rest, words, token, None, started);
      } else if quote.None? && (c == ' ' || c == '\t') {
        ScannedThenSpace(more, rest, if started then words + [token] else words, [], None, false);
      } else {
        ScannedThenSpace(more, rest, words, token + [c], quote, true);
      }
    }
  }

  predicate IsHexDigit(c: Byte) {
    '0' <= c <= '9' || 'a' <= c <= 'f' || 'A' <= c <= 'F'
  }

  /** What is refused after any accepted beginning: a backslash at the end or before anything but
      the four characters and an `x`, an escape that is not two hexadecimal digits or is zero, and
      a quote that is not closed. */
  lemma BadTokens(s: seq<Byte>, c: Byte, high: Byte, low: Byte, quote: Byte, atoms: seq<Atom>, rest: seq<Byte>)
    requires Split(s).Some?
    ensures Split(s + [' '] + ['\\']) == None
    ensures c != 'x' && c != '\\' && c != '"' && c != '\'' && c != ' ' ==> Split(s + [' '] + (['\\', c] + rest)) == None
    ensures !IsHexDigit(high) || !IsHexDigit(low) || (high == '0' && low == '0') ==>
              Split(s + [' '] + (['\\', 'x', high, low] + rest)) == None
    ensures (quote == '"' || quote == '\'') && (forall a :: a in atoms ==> AtomOk(a, Some(quote))) ==>
              Split(s + [' '] + ([quote] + AtomsText(atoms))) == None
  {
    var words := Split(s).value;
    ScannedThenSpace(s, ['\\'], [], [], None, false);
    ScannedThenSpace(s, ['\\', c] + rest, [], [], None, false);
    assert (['\\', c] + rest)[1..] == [c] + rest;
    ScannedThenSpace(s, ['\\', 'x', high, low] + rest, [], [], None, false);
    assert (['\\', 'x', high, low] + rest)[1..] == ['x', high, low] + rest;
    if (quote == '"' || quote == '\'') && forall a :: a in atoms ==> AtomOk(a, Some(quote)) {
      var text := [quote] + AtomsText(atoms);
      ScannedThenSpace(s, text, [], [], None, false);
      assert text[0] == quote && text[1..] == AtomsText(atoms) + [];
      AtomsScanned(atoms, [], words, [], quote);
    }
  }

  /** Two accepted lines with a space between them have the words of the first, then of the second. */
  lemma LinesConcatenate(s: seq<Byte>, t: seq<Byte>)
    requires Split(s).Some? && Split(t).Some?
    ensures Split(s + [' '] + t) == Some(Split(s).value + Split(t).value)
  {
    ScannedThenSpace(s, t, [], [], None, false);
    WordsAccumulate(t, Split(s).value, [], [], None, false);
    assert Split(s).value + [] == Split(s).value;
  }
}
