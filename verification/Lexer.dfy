/** Cutting the text of a program into tokens. */
module Lexer {
  import opened Grammar

  predicate IsDigit(c: char) { '0' <= c <= '9' }

  predicate IsIdentifierCharacter(c: char) {
    IsDigit(c) || 'A' <= c <= 'Z' || 'a' <= c <= 'z' || c == '_' || c == '\'' || c == '\"'
  }

  predicate IsIdentifierStart(c: char) {
    'A' <= c <= 'Z' || 'a' <= c <= 'z' || c == '_'
  }

  predicate IsBlank(c: char) { c == ' ' || c == '\t' || c == '\r' || c == '\n' }

  const PUNCTUATION: map<char, Kind> :=
    map['(' := LPAREN, ')' := RPAREN, '+' := PLUS, '-' := MINUS, '*' := STAR, '/' := SLASH, ',' := COMMA]

  const KEYWORDS: map<string, Kind> :=
    map["else" := ELSE, "false" := FALSE, "fn" := FN, "if" := Kind.IF, "in" := IN, "let" := LET, "rec" := REC,
        "then" := THEN, "true" := TRUE]

  /** Where the digits, or the characters of an identifier, that start at `pos` end. */
  function DigitsEnd(b: string, pos: nat): (end: nat)
    requires pos <= |b|
    ensures pos <= end <= |b| && (forall i :: pos <= i < end ==> IsDigit(b[i])) && (end < |b| ==> !IsDigit(b[end]))
    decreases |b| - pos
  {
    if pos < |b| && IsDigit(b[pos]) then DigitsEnd(b, pos + 1) else pos
  }

  function WordEnd(b: string, pos: nat): (end: nat)
    requires pos <= |b|
    ensures pos <= end <= |b| && (forall i :: pos <= i < end ==> IsIdentifierCharacter(b[i]))
    ensures end < |b| ==> !IsIdentifierCharacter(b[end])
    decreases |b| - pos
  {
    if pos < |b| && IsIdentifierCharacter(b[pos]) then WordEnd(b, pos + 1) else pos
  }

  function LineEnd(b: string, pos: nat): (end: nat)
    requires pos <= |b|
    ensures pos <= end <= |b| && (forall i :: pos <= i < end ==> b[i] != '\n') && (end < |b| ==> b[end] == '\n')
    decreases |b| - pos
  {
    if pos < |b| && b[pos] != '\n' then LineEnd(b, pos + 1) else pos
  }

  function WordKind(word: string): Kind {
    if word in KEYWORDS then KEYWORDS[word] else ID
  }

  /** What starts at a position, and where it ends. */
  datatype Piece = Lexeme(kind: Kind, end: nat) | Blank(end: nat) | Comment(end: nat) | Unexpected(end: nat)

  function PieceAt(b: string, pos: nat): (p: Piece)
    requires pos < |b|
    ensures pos < p.end <= |b|
  {
    var c := b[pos];
    if c in PUNCTUATION then Lexeme(PUNCTUATION[c], pos + 1)
    else if c == '=' then
      if pos + 1 < |b| && b[pos + 1] == '>' then Lexeme(ARROW, pos + 2) else Lexeme(EQUALS, pos + 1)
    else if IsBlank(c) then Blank(pos + 1)
    else if c == '#' then Comment(LineEnd(b, pos + 1))
    else if IsDigit(c) then Lexeme(INT_LITERAL, DigitsEnd(b, pos + 1))
    else if IsIdentifierStart(c) then
      var end := WordEnd(b, pos + 1);
      Lexeme(WordKind(b[pos..end]), end)
    else Unexpected(pos + 1)
  }

  /** A token in the text. */
  datatype Place = Place(kind: Kind, start: nat, length: nat)

  /** The tokens from a position on, without the end of the file. */
  function Places(b: string, pos: nat): seq<Place>
    requires pos <= |b|
    decreases |b| - pos
  {
    if pos == |b| then []
    else
      var p := PieceAt(b, pos);
      if p.Lexeme? then [Place(p.kind, pos, p.end - pos)] + Places(b, p.end) else Places(b, p.end)
  }

  /** The last comment is closed by the end of its line. */
  predicate Closed(b: string, pos: nat)
    requires pos <= |b|
    decreases |b| - pos
  {
    pos == |b| || (
      var p := PieceAt(b, pos);
      (p.Comment? ==> p.end < |b|) && Closed(b, p.end))
  }

  /** The offsets of the line ends. */
  function NewLines(b: string, pos: nat): seq<nat>
    requires pos <= |b|
    decreases |b| - pos
  {
    if pos == |b| then []
    else if b[pos] == '\n' then [pos] + NewLines(b, pos + 1)
    else NewLines(b, pos + 1)
  }

  // ----- Tiling -----

  predicate Covers(t: Place, i: nat) { t.start <= i < t.start + t.length }

  /** Tokens in order, not overlapping, within bounds. */
  predicate Ascending(ts: seq<Place>, from: nat, to: nat) {
    if ts == [] then from <= to
    else from <= ts[0].start && ts[0].length > 0 && Ascending(ts[1..], ts[0].start + ts[0].length, to)
  }

  /** A token is spelled as its kind asks for, and could not be longer. */
  predicate Spelled(b: string, t: Place)
    requires t.length > 0 && t.start + t.length <= |b|
  {
    var text, end := b[t.start..t.start + t.length], t.start + t.length;
    match t.kind
    case INT_LITERAL => (forall i :: 0 <= i < |text| ==> IsDigit(text[i])) && (end < |b| ==> !IsDigit(b[end]))
    case EQUALS => text == "=" && (end < |b| ==> b[end] != '>')
    case ARROW => text == "=>"
    case k => if IsIdentifierStart(text[0]) then SpelledWord(b, text, end, k) else SpelledSign(text, k)
  }

  predicate SpelledWord(b: string, text: string, end: nat, k: Kind) {
    && (forall i :: 0 <= i < |text| ==> IsIdentifierCharacter(text[i])) &&
       (end < |b| ==> !IsIdentifierCharacter(b[end]))
    && k == WordKind(text)
  }

  predicate SpelledSign(text: string, k: Kind) {
    |text| == 1 && text[0] in PUNCTUATION && k == PUNCTUATION[text[0]]
  }

  lemma {:induction false} PlacesInOrder(b: string, pos: nat)
    requires pos <= |b|
    ensures Ascending(Places(b, pos), pos, |b|)
    decreases |b| - pos
  {
    if pos < |b| {
      var p := PieceAt(b, pos);
      PlacesInOrder(b, p.end);
      if !p.Lexeme? { LaterStart(Places(b, p.end), p.end, pos, |b|); }
    }
  }

  lemma LaterStart(ts: seq<Place>, from: nat, earlier: nat, to: nat)
    requires Ascending(ts, from, to) && earlier <= from
    ensures Ascending(ts, earlier, to)
  {
  }

  lemma {:induction false} InOrderBounds(ts: seq<Place>, from: nat, to: nat, t: Place)
    requires Ascending(ts, from, to) && t in ts
    ensures from <= t.start && t.length > 0 && t.start + t.length <= to
  {
    if t != ts[0] {
      InOrderBounds(ts[1..], ts[0].start + ts[0].length, to, t);
    } else {
      LaterEnd(ts[1..], ts[0].start + ts[0].length, to);
    }
  }

  lemma {:induction false} LaterEnd(ts: seq<Place>, from: nat, to: nat)
    requires Ascending(ts, from, to)
    ensures from <= to
  {
    if ts != [] { LaterEnd(ts[1..], ts[0].start + ts[0].length, to); }
  }

  lemma PieceSpelled(b: string, pos: nat)
    requires pos < |b| && PieceAt(b, pos).Lexeme?
    ensures var p := PieceAt(b, pos); Spelled(b, Place(p.kind, pos, p.end - pos))
  {
    var p := PieceAt(b, pos);
    var text := b[pos..p.end];
    assert text[0] == b[pos];
    if IsDigit(b[pos]) {
      LiteralIsSpelled(b, pos);
    } else if IsIdentifierStart(b[pos]) {
      WordIsSpelled(b, pos);
    }
  }

  lemma LiteralIsSpelled(b: string, pos: nat)
    requires pos < |b| && IsDigit(b[pos])
    ensures Spelled(b, Place(INT_LITERAL, pos, DigitsEnd(b, pos + 1) - pos))
  {
    var text := b[pos..DigitsEnd(b, pos + 1)];
    forall i | 0 <= i < |text| ensures IsDigit(text[i]) {
      assert text[i] == b[pos + i];
    }
  }

  lemma WordKinds(word: string)
    ensures WordKind(word) !in {INT_LITERAL, EQUALS, ARROW}
  {
    assert forall w :: w in KEYWORDS ==> KEYWORDS[w] !in {INT_LITERAL, EQUALS, ARROW};
  }

  lemma WordText(b: string, pos: nat)
    requires pos < |b| && IsIdentifierStart(b[pos])
    ensures var end := WordEnd(b, pos + 1); SpelledWord(b, b[pos..end], end, WordKind(b[pos..end]))
  {
    hide WordKind;
    var text := b[pos..WordEnd(b, pos + 1)];
    forall i | 0 <= i < |text| ensures IsIdentifierCharacter(text[i]) {
      assert text[i] == b[pos + i];
    }
  }

  lemma SpelledAsWord(b: string, t: Place)
    requires t.length > 0 && t.start + t.length <= |b| && t.kind !in {INT_LITERAL, EQUALS, ARROW}
    requires var text, end := b[t.start..t.start + t.length], t.start + t.length;
             IsIdentifierStart(text[0]) && SpelledWord(b, text, end, t.kind)
    ensures Spelled(b, t)
  {
    hide IsIdentifierStart, SpelledWord, SpelledSign;
  }

  lemma WordIsSpelled(b: string, pos: nat)
    requires pos < |b| && IsIdentifierStart(b[pos])
    ensures var end := WordEnd(b, pos + 1); Spelled(b, Place(WordKind(b[pos..end]), pos, end - pos))
  {
    hide *;
    var end := WordEnd(b, pos + 1);
    var text := b[pos..end];
    assert text[0] == b[pos];
    WordKinds(text);
    WordText(b, pos);
    SpelledAsWord(b, Place(WordKind(text), pos, end - pos));
  }

  /** Every token of a text is spelled as its kind asks for. */
  lemma {:induction false} PlacesSpelled(b: string, pos: nat, t: Place)
    requires pos <= |b| && t in Places(b, pos)
    ensures t.length > 0 && t.start + t.length <= |b| && Spelled(b, t)
    decreases |b| - pos
  {
    var p := PieceAt(b, pos);
    if p.Lexeme? && t == Place(p.kind, pos, p.end - pos) {
      PieceSpelled(b, pos);
    } else {
      PlacesSpelled(b, p.end, t);
    }
  }

  /** A character that belongs to no token and is not blank. */
  predicate IsUnexpected(c: char) {
    c !in PUNCTUATION && c != '=' && !IsBlank(c) && c != '#' && !IsDigit(c) && !IsIdentifierStart(c)
  }

  ghost predicate InToken(b: string, pos: nat, i: nat)
    requires pos <= |b|
  {
    exists t :: t in Places(b, pos) && Covers(t, i)
  }

  ghost predicate InComment(b: string, i: nat)
    requires i < |b|
  {
    exists j :: 0 <= j <= i && b[j] == '#' && forall k :: j <= k <= i ==> b[k] != '\n'
  }

  /** What is not part of a token is blank, part of a comment, or a character that starts nothing. */
  lemma {:induction false} Tiled(b: string, pos: nat, i: nat)
    requires pos <= i < |b|
    ensures InToken(b, pos, i) || IsBlank(b[i]) || InComment(b, i) || IsUnexpected(b[i])
    decreases |b| - pos
  {
    var p := PieceAt(b, pos);
    if i < p.end {
      match p
      case Lexeme(kind, end) => assert Places(b, pos)[0] == Place(kind, pos, end - pos) &&
        Covers(Place(kind, pos, end - pos), i);
      case Comment(_) => assert b[pos] == '#' && forall k :: pos <= k <= i ==> b[k] != '\n';
      case _ =>
    } else {
      Tiled(b, p.end, i);
      if InToken(b, p.end, i) {
        var t :| t in Places(b, p.end) && Covers(t, i);
        assert t in Places(b, pos);
      }
    }
  }

  /** A comment that began before `pos` is still open there. */
  ghost predicate InsideComment(b: string, pos: nat)
    requires pos <= |b|
  {
    exists j :: 0 <= j < pos && b[j] == '#' && forall k :: j <= k < pos ==> b[k] != '\n'
  }

  /** Tokens have no `#` in them. */
  lemma LexemeIsPlain(b: string, pos: nat)
    requires pos < |b| && PieceAt(b, pos).Lexeme?
    ensures forall i :: pos <= i < PieceAt(b, pos).end ==> b[i] != '#'
  {
    var c := b[pos];
    if IsDigit(c) {
      assert forall i :: pos + 1 <= i < DigitsEnd(b, pos + 1) ==> IsDigit(b[i]);
    } else if IsIdentifierStart(c) {
      assert forall i :: pos + 1 <= i < WordEnd(b, pos + 1) ==> IsIdentifierCharacter(b[i]);
    }
  }

  /** A piece ends outside of comments, or just before the end of a line. */
  lemma PieceLeavesComment(b: string, pos: nat)
    requires pos < |b| && (b[pos] == '\n' || !InsideComment(b, pos))
    ensures var end := PieceAt(b, pos).end; end == |b| || b[end] == '\n' || !InsideComment(b, end)
  {
    var p := PieceAt(b, pos);
    if p.Lexeme? { LexemeIsPlain(b, pos); }
  }

  /** The text of a comment is skipped: no token has a character of one. */
  lemma {:induction false} CommentsAreSkipped(b: string, pos: nat, t: Place, i: nat)
    requires pos <= |b| && (pos == |b| || b[pos] == '\n' || !InsideComment(b, pos))
    requires t in Places(b, pos) && Covers(t, i)
    ensures i < |b| && !InComment(b, i)
    decreases |b| - pos
  {
    var p := PieceAt(b, pos);
    PieceLeavesComment(b, pos);
    if p.Lexeme? && t == Place(p.kind, pos, p.end - pos) {
      LexemeIsPlain(b, pos);
    } else {
      CommentsAreSkipped(b, p.end, t, i);
    }
  }

  /** A character of a text is part of a token exactly if it is neither in a comment nor blank nor one
      that starts nothing. */
  lemma TokensExactly(b: string, i: nat)
    requires i < |b|
    ensures InToken(b, 0, i) ==> !InComment(b, i) && !IsBlank(b[i])
    ensures !InComment(b, i) && !IsBlank(b[i]) && !IsUnexpected(b[i]) ==> InToken(b, 0, i)
  {
    Tiled(b, 0, i);
    if t :| t in Places(b, 0) && Covers(t, i) {
      CommentsAreSkipped(b, 0, t, i);
      TokensAreDark(b, 0, t, i);
    }
  }

  lemma {:induction false} TokensAreDark(b: string, pos: nat, t: Place, i: nat)
    requires pos <= |b| && t in Places(b, pos) && Covers(t, i)
    ensures i < |b| && !IsBlank(b[i])
    decreases |b| - pos
  {
    var p := PieceAt(b, pos);
    if p.Lexeme? && t == Place(p.kind, pos, p.end - pos) {
      LexemeIsDark(b, pos);
    } else {
      TokensAreDark(b, p.end, t, i);
    }
  }

  lemma LexemeIsDark(b: string, pos: nat)
    requires pos < |b| && PieceAt(b, pos).Lexeme?
    ensures forall i :: pos <= i < PieceAt(b, pos).end ==> !IsBlank(b[i])
  {
    var c := b[pos];
    if IsDigit(c) {
      assert forall i :: pos + 1 <= i < DigitsEnd(b, pos + 1) ==> IsDigit(b[i]);
    } else if IsIdentifierStart(c) {
      assert forall i :: pos + 1 <= i < WordEnd(b, pos + 1) ==> IsIdentifierCharacter(b[i]);
    }
  }

  /** The last comment is closed exactly if the text does not end in a comment. */
  lemma {:induction false} ClosedExactly(b: string, pos: nat)
    requires pos <= |b| && (pos == |b| || b[pos] == '\n' || !InsideComment(b, pos))
    ensures Closed(b, pos) <==> pos == |b| || !InComment(b, |b| - 1)
    decreases |b| - pos
  {
    if pos < |b| {
      var p := PieceAt(b, pos);
      PieceLeavesComment(b, pos);
      if p.Comment? && p.end == |b| {
        assert b[pos] == '#' && forall k :: pos <= k <= |b| - 1 ==> b[k] != '\n';
      } else if p.end == |b| {
        if InComment(b, |b| - 1) {
          var j :| 0 <= j <= |b| - 1 && b[j] == '#' && forall k :: j <= k <= |b| - 1 ==> b[k] != '\n';
          if p.Lexeme? { LexemeIsPlain(b, pos); }
          assert j < pos;
          assert InsideComment(b, pos);
        }
      } else {
        ClosedExactly(b, p.end);
      }
    }
  }

  // ----- Round trip -----

  /** A token whose text is spelled as its kind asks for. */
  predicate WellSpelled(t: Token) {
    |t.text| > 0 && Spelled(t.text, Place(t.kind, 0, |t.text|))
  }

  /** The tokens' texts, each followed by a space. */
  function Render(ts: seq<Token>): string {
    if ts == [] then "" else ts[0].text + " " + Render(ts[1..])
  }

  function PlacesOf(ts: seq<Token>, pos: nat): seq<Place> {
    if ts == [] then [] else [Place(ts[0].kind, pos, |ts[0].text|)] + PlacesOf(ts[1..], pos + |ts[0].text| + 1)
  }

  /** A character that ends whatever token comes before it. */
  predicate Separates(c: char) { IsBlank(c) || c == '#' }

  /** A well-spelled text that a separator follows is cut off as one token. */
  lemma PieceOf(b: string, pos: nat, t: Token)
    requires WellSpelled(t) && pos + |t.text| < |b| && b[pos..pos + |t.text|] == t.text && Separates(b[pos + |t.text|])
    ensures PieceAt(b, pos) == Lexeme(t.kind, pos + |t.text|)
  {
    assert t.text[0..|t.text|] == t.text && b[pos] == t.text[0];
    if t.kind == INT_LITERAL {
      LiteralPiece(b, pos, t.text);
    } else if t.kind != EQUALS && t.kind != ARROW && IsIdentifierStart(t.text[0]) {
      WordPiece(b, pos, t.text);
    } else if t.kind == ARROW {
      assert b[pos + 1] == t.text[1];
    }
  }

  lemma LiteralPiece(b: string, pos: nat, text: string)
    requires text != [] && forall i :: 0 <= i < |text| ==> IsDigit(text[i])
    requires pos + |text| < |b| && b[pos..pos + |text|] == text && Separates(b[pos + |text|])
    ensures PieceAt(b, pos) == Lexeme(INT_LITERAL, pos + |text|)
  {
    assert forall i :: pos <= i < pos + |text| ==> b[i] == text[i - pos];
    assert DigitsEnd(b, pos + 1) == pos + |text|;
  }

  lemma WordPiece(b: string, pos: nat, text: string)
    requires text != [] && IsIdentifierStart(text[0]) && forall i :: 0 <= i < |text| ==> IsIdentifierCharacter(text[i])
    requires pos + |text| < |b| && b[pos..pos + |text|] == text && Separates(b[pos + |text|])
    ensures PieceAt(b, pos) == Lexeme(WordKind(text), pos + |text|)
  {
    hide WordKind;
    assert forall i :: pos <= i < pos + |text| ==> b[i] == text[i - pos];
    assert WordEnd(b, pos + 1) == pos + |text|;
  }

  lemma Slices(b: string, pos: nat, text: string, rest: string)
    requires pos <= |b| && b[pos..] == text + " " + rest
    ensures pos + |text| < |b| && b[pos..pos + |text|] == text && b[pos + |text|] == ' ' &&
            b[pos + |text| + 1..] == rest
  {
    var suffix := b[pos..];
    assert suffix[..|text|] == text && suffix[|text|] == ' ' && suffix[|text| + 1..] == rest;
  }

  /** Cutting rendered tokens gives them back. */
  lemma {:induction false} LexRoundTrip(b: string, pos: nat, ts: seq<Token>)
    requires pos <= |b| && b[pos..] == Render(ts) && forall t :: t in ts ==> WellSpelled(t)
    ensures Places(b, pos) == PlacesOf(ts, pos) && Closed(b, pos)
    decreases |ts|
  {
    hide PieceAt, WellSpelled;
    if ts != [] {
      var end := pos + |ts[0].text|;
      Slices(b, pos, ts[0].text, Render(ts[1..]));
      PieceOf(b, pos, ts[0]);
      BlankPiece(b, end);
      TokenAndBlank(b, pos, ts[0].kind, end);
      hide Places, Closed;
      LexRoundTrip(b, end + 1, ts[1..]);
    }
  }

  lemma TokenAndBlank(b: string, pos: nat, kind: Kind, end: nat)
    requires pos < end < |b| && PieceAt(b, pos) == Lexeme(kind, end) && PieceAt(b, end) == Blank(end + 1)
    ensures Places(b, pos) == [Place(kind, pos, end - pos)] + Places(b, end + 1)
    ensures Closed(b, pos) <==> Closed(b, end + 1)
  {
    hide PieceAt;
  }

  lemma BlankPiece(b: string, pos: nat)
    requires pos < |b| && b[pos] == ' '
    ensures PieceAt(b, pos) == Blank(pos + 1)
  {
  }

  /** The texts of the tokens. */
  function TokensAt(b: string, places: seq<Place>): seq<Token>
    requires forall p :: p in places ==> p.start + p.length <= |b|
  {
    if places == [] then []
    else
      [Token(places[0].kind, b[places[0].start..places[0].start + places[0].length])] + TokensAt(b, places[1..])
  }

  lemma {:induction false} TokensRendered(b: string, pos: nat, ts: seq<Token>)
    requires pos <= |b| && b[pos..] == Render(ts)
    ensures forall p :: p in PlacesOf(ts, pos) ==> p.start + p.length <= |b|
    ensures TokensAt(b, PlacesOf(ts, pos)) == ts
    decreases |ts|
  {
    if ts != [] {
      Slices(b, pos, ts[0].text, Render(ts[1..]));
      TokensRendered(b, pos + |ts[0].text| + 1, ts[1..]);
    }
  }

  /** Rendering tokens with spaces between them and cutting the text gives the tokens back. */
  lemma RenderRoundTrip(ts: seq<Token>)
    requires forall t :: t in ts ==> WellSpelled(t)
    ensures var b := Render(ts);
            && Closed(b, 0) && (forall p :: p in Places(b, 0) ==> p.start + p.length <= |b|)
            && TokensAt(b, Places(b, 0)) == ts
  {
    assert Render(ts)[0..] == Render(ts);
    LexRoundTrip(Render(ts), 0, ts);
    TokensRendered(Render(ts), 0, ts);
  }

  // ----- Errors -----

  /** The errors reported: one for each run of unexpected characters that something follows. */
  function ErrorRuns(b: string, pos: nat, inRun: bool): nat
    requires pos <= |b|
    decreases |b| - pos
  {
    if pos == |b| then 0
    else
      var p := PieceAt(b, pos);
      (if inRun && !p.Unexpected? then 1 else 0) + ErrorRuns(b, p.end, p.Unexpected?)
  }

  /** The pieces up to one position, all of them as expected, and those from there on, none. */
  predicate Expected(b: string, pos: nat, cut: nat)
    requires pos <= |b|
    decreases |b| - pos
  {
    pos == cut || (pos < |b| && !PieceAt(b, pos).Unexpected? && Expected(b, PieceAt(b, pos).end, cut))
  }

  predicate AllUnexpected(b: string, pos: nat)
    requires pos <= |b|
  {
    forall i :: pos <= i < |b| ==> IsUnexpected(b[i])
  }

  lemma UnexpectedPiece(b: string, pos: nat)
    requires pos < |b|
    ensures PieceAt(b, pos).Unexpected? <==> IsUnexpected(b[pos])
    ensures IsUnexpected(b[pos]) ==> PieceAt(b, pos).end == pos + 1
  {
  }

  lemma {:induction false} RunToTheEnd(b: string, pos: nat)
    requires pos <= |b|
    ensures ErrorRuns(b, pos, true) == 0 <==> AllUnexpected(b, pos)
    decreases |b| - pos
  {
    if pos < |b| {
      UnexpectedPiece(b, pos);
      if IsUnexpected(b[pos]) { RunToTheEnd(b, pos + 1); }
    }
  }

  /** No error is reported exactly if unexpected characters only come at the very end of the text,
      where they go unnoticed. */
  lemma {:induction false} ErrorsUnnoticed(b: string, pos: nat)
    requires pos <= |b|
    ensures ErrorRuns(b, pos, false) == 0 <==> exists cut: nat ::
              pos <= cut <= |b| && Expected(b, pos, cut) && AllUnexpected(b, cut)
    decreases |b| - pos
  {
    if pos == |b| {
      assert Expected(b, pos, pos) && AllUnexpected(b, pos);
    } else {
      UnexpectedPiece(b, pos);
      if IsUnexpected(b[pos]) {
        RunToTheEnd(b, pos + 1);
        if AllUnexpected(b, pos + 1) { assert Expected(b, pos, pos) && AllUnexpected(b, pos); }
        if cut: nat :| pos <= cut <= |b| && Expected(b, pos, cut) && AllUnexpected(b, cut) { assert cut == pos; }
      } else {
        var end := PieceAt(b, pos).end;
        ErrorsUnnoticed(b, end);
        if cut: nat :| end <= cut <= |b| && Expected(b, end, cut) && AllUnexpected(b, cut) {
          assert Expected(b, pos, cut);
        }
        if cut: nat :| pos <= cut <= |b| && Expected(b, pos, cut) && AllUnexpected(b, cut) { LaterCut(b, pos, cut); }
      }
    }
  }

  lemma {:induction false} LaterCut(b: string, pos: nat, cut: nat)
    requires pos < |b| && pos <= cut <= |b| && !IsUnexpected(b[pos]) && Expected(b, pos, cut) && AllUnexpected(b, cut)
    ensures cut >= PieceAt(b, pos).end && Expected(b, PieceAt(b, pos).end, cut)
  {
    assert cut != pos;
    ExpectedForward(b, PieceAt(b, pos).end, cut);
  }

  lemma {:induction false} ExpectedForward(b: string, pos: nat, cut: nat)
    requires pos <= |b| && Expected(b, pos, cut)
    ensures pos <= cut
    decreases |b| - pos
  {
    if pos != cut { ExpectedForward(b, PieceAt(b, pos).end, cut); }
  }
}
