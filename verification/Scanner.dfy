/** The lexer, and the positions it records. */
module Scanner {
  import opened Grammar
  import opened Lexer

  // ----- Keywords -----

  /** The keywords that are tried for a first letter, in order. */
  function KeywordsFor(c: char): seq<(string, Kind)> {
    match c
    case 'e' => [("else", ELSE)]
    case 'f' => [("false", FALSE), ("fn", FN)]
    case 'i' => [("if", Kind.IF), ("in", IN)]
    case 'l' => [("let", LET)]
    case 'r' => [("rec", REC)]
    case 't' => [("then", THEN), ("true", TRUE)]
    case _ => []
  }

  lemma KeywordsOnly(c: char)
    ensures forall k :: k in KeywordsFor(c) ==> k.0 in KEYWORDS && KEYWORDS[k.0] == k.1
  {
  }

  /** Only keywords with the same first letter need to be tried. */
  lemma KeywordsSuffice(word: string)
    requires word in KEYWORDS
    ensures word != [] && exists k :: k in KeywordsFor(word[0]) && k.0 == word
  {
    if word == "else" || word == "false" || word == "if" || word == "let" || word == "rec" || word == "then" {
      assert KeywordsFor(word[0])[0].0 == word;
    } else {
      assert KeywordsFor(word[0])[1].0 == word;
    }
  }

  /** A keyword is there if the text starts with it and it is not part of a longer word. */
  method TryAddKeyword(b: string, pos: nat, keyword: string) returns (end: nat, added: bool)
    requires pos < |b| && keyword in KEYWORDS
    ensures added <==> b[pos..WordEnd(b, pos)] == keyword
    ensures added ==> end == WordEnd(b, pos)
  {
    var i := 0;
    while pos + i < |b| && i < |keyword| && b[pos + i] == keyword[i]
      invariant 0 <= i <= |keyword| && pos + i <= |b|
      invariant forall j :: 0 <= j < i ==> b[pos + j] == keyword[j]
    {
      i := i + 1;
    }
    end := pos + i;
    added := i == |keyword| && (end == |b| || !IsIdentifierCharacter(b[end]));
    KeywordLetters(keyword);
    ghost var word := b[pos..WordEnd(b, pos)];
    if added {
      assert b[pos..end] == keyword;
      assert forall k :: pos <= k < end ==> IsIdentifierCharacter(b[k]) by {
        assert forall k :: pos <= k < end ==> b[k] == keyword[k - pos];
      }
    }
    assert forall k :: 0 <= k < |word| ==> b[pos + k] == word[k];
  }

  lemma KeywordLetters(keyword: string)
    requires keyword in KEYWORDS
    ensures |keyword| > 0 && forall i :: 0 <= i < |keyword| ==> IsIdentifierCharacter(keyword[i])
    ensures IsIdentifierStart(keyword[0])
  {
  }

  /** The kind of the word at a position, trying keywords one by one. */
  method AddWord(b: string, pos: nat) returns (kind: Kind, end: nat)
    requires pos < |b| && IsIdentifierStart(b[pos])
    ensures end == WordEnd(b, pos) == WordEnd(b, pos + 1) && kind == WordKind(b[pos..end])
  {
    ghost var word := b[pos..WordEnd(b, pos)];
    assert word[0] == b[pos];
    if word in KEYWORDS { KeywordsSuffice(word); }
    KeywordsOnly(b[pos]);
    hide KeywordsFor;
    var list := KeywordsFor(b[pos]);
    var k := 0;
    while k < |list|
      invariant 0 <= k <= |list| && forall j :: 0 <= j < k ==> list[j].0 != word
    {
      var added;
      end, added := TryAddKeyword(b, pos, list[k].0);
      if added { return list[k].1, end; }
      k := k + 1;
    }
    end := AddIdentifierToken(b, pos);
    kind := ID;
  }

  method AddIdentifierToken(b: string, pos: nat) returns (end: nat)
    requires pos <= |b|
    ensures end == WordEnd(b, pos)
  {
    end := pos;
    while end < |b|
      invariant pos <= end <= |b| && WordEnd(b, pos) == WordEnd(b, end)
    {
      if !IsIdentifierCharacter(b[end]) { break; }
      end := end + 1;
    }
  }

  method AddIntegerLiteral(b: string, pos: nat) returns (end: nat)
    requires pos <= |b|
    ensures end == DigitsEnd(b, pos)
  {
    end := pos;
    while end < |b|
      invariant pos <= end <= |b| && DigitsEnd(b, pos) == DigitsEnd(b, end)
    {
      if !IsDigit(b[end]) { break; }
      end := end + 1;
    }
  }

  // ----- The lexer -----

  lemma {:induction false} NewLinesSkip(b: string, pos: nat, end: nat)
    requires pos <= end <= |b| && forall i :: pos <= i < end ==> b[i] != '\n'
    ensures NewLines(b, pos) == NewLines(b, end)
    decreases end - pos
  {
    if pos < end { NewLinesSkip(b, pos + 1, end); }
  }

  lemma PieceLine(b: string, pos: nat)
    requires pos < |b|
    ensures var p := PieceAt(b, pos); NewLines(b, pos) == (if b[pos] == '\n' then [pos] else []) + NewLines(b, p.end)
  {
    var p := PieceAt(b, pos);
    if b[pos] == '\n' {
      LineBreak(b, pos);
    } else {
      OneLine(b, pos);
      NewLinesSkip(b, pos, p.end);
      assert [] + NewLines(b, p.end) == NewLines(b, p.end);
    }
  }

  lemma LineBreak(b: string, pos: nat)
    requires pos < |b| && b[pos] == '\n'
    ensures PieceAt(b, pos) == Blank(pos + 1)
  {
  }

  /** Only a line end itself contains one. */
  lemma OneLine(b: string, pos: nat)
    requires pos < |b| && b[pos] != '\n'
    ensures forall i :: pos <= i < PieceAt(b, pos).end ==> b[i] != '\n'
  {
    var c := b[pos];
    if c in PUNCTUATION {
    } else if c == '=' {
    } else if IsDigit(c) {
      assert forall i :: pos + 1 <= i < DigitsEnd(b, pos + 1) ==> IsDigit(b[i]);
    } else if IsIdentifierStart(c) {
      assert forall i :: pos + 1 <= i < WordEnd(b, pos + 1) ==> IsIdentifierCharacter(b[i]);
    }
  }

  /** What starts at a position. */
  method Scan(b: string, pos: nat) returns (p: Piece)
    requires pos < |b|
    ensures p == PieceAt(b, pos)
  {
    var c, end := b[pos], pos + 1;
    if c in PUNCTUATION {
      p := Lexeme(PUNCTUATION[c], end);
    } else if c == '=' {
      p := if end < |b| && b[end] == '>' then Lexeme(ARROW, end + 1) else Lexeme(EQUALS, end);
    } else if IsBlank(c) {
      p := Blank(end);
    } else if c == '#' {
      end := pos;
      while end < |b| && b[end] != '\n'
        invariant pos <= end <= |b| && LineEnd(b, pos) == LineEnd(b, end)
      {
        end := end + 1;
      }
      assert LineEnd(b, pos) == LineEnd(b, pos + 1) == end;
      p := Comment(end);
    } else if IsDigit(c) {
      end := AddIntegerLiteral(b, pos);
      assert DigitsEnd(b, pos) == DigitsEnd(b, pos + 1);
      p := Lexeme(INT_LITERAL, end);
    } else if IsIdentifierStart(c) {
      var kind;
      kind, end := AddWord(b, pos);
      p := Lexeme(kind, end);
    } else {
      p := Unexpected(end);
    }
  }

  /** What one piece adds. */
  lemma OnePiece(b: string, pos: nat, inRun: bool)
    requires pos < |b|
    ensures var p := PieceAt(b, pos);
            && Places(b, pos) == (if p.Lexeme? then [Place(p.kind, pos, p.end - pos)] else []) + Places(b, p.end)
            && (Closed(b, pos) <==> (p.Comment? ==> p.end < |b|) && Closed(b, p.end))
            && ErrorRuns(b, pos, inRun) == (if inRun && !p.Unexpected? then 1 else 0)
               + ErrorRuns(b, p.end, p.Unexpected?)
  {
    hide PieceAt;
    var p := PieceAt(b, pos);
    assert [] + Places(b, p.end) == Places(b, p.end);
  }

  lemma NoPiece(b: string)
    ensures Closed(b, |b|) && Places(b, |b|) == [] && NewLines(b, |b|) == [] && forall r: bool ::
              ErrorRuns(b, |b|, r) == 0
  {
  }

  /** Cuts a text into tokens. A comment that no line end closes is followed beyond the end of the
      text. */
  method LexBuffer(b: string) returns (tokens: seq<Place>, lines: seq<nat>, errors: nat, halts: bool)
    ensures halts <==> Closed(b, 0)
    ensures halts ==>
              tokens == Places(b, 0) + [Place(EOF, |b|, 0)] && lines == NewLines(b, 0) &&
              errors == ErrorRuns(b, 0, false)
  {
    hide PieceAt, Places, NewLines, Closed, ErrorRuns;
    NoPiece(b);
    tokens, lines, errors := [], [], 0;
    var pos, inError := 0, false;
    while pos < |b|
      invariant 0 <= pos <= |b|
      invariant Closed(b, 0) == Closed(b, pos)
      invariant tokens + Places(b, pos) == Places(b, 0) && lines + NewLines(b, pos) == NewLines(b, 0)
      invariant errors + ErrorRuns(b, pos, inError) == ErrorRuns(b, 0, false)
      decreases |b| - pos
    {
      PieceLine(b, pos);
      OnePiece(b, pos, inError);
      var p := Scan(b, pos);
      if p.Comment? && p.end == |b| { return tokens, lines, errors, false; }
      if p.Lexeme? { tokens := tokens + [Place(p.kind, pos, p.end - pos)]; }
      if b[pos] == '\n' { lines := lines + [pos]; }
      if p.Unexpected? {
        inError := true;
      } else if inError {
        errors, inError := errors + 1, false;
      }
      pos := p.end;
    }
    tokens, halts := tokens + [Place(EOF, |b|, 0)], true;
  }

  // ----- Positions -----

  function CountNewLines(b: string, position: nat): nat
    requires position <= |b|
  {
    if position == 0 then 0 else CountNewLines(b, position - 1) + if b[position - 1] == '\n' then 1 else 0
  }

  ghost predicate Sorted(lines: seq<nat>) {
    forall i, j :: 0 <= i < j < |lines| ==> lines[i] < lines[j]
  }

  /** The number of line ends before a position, by binary search. */
  method GetLineColumnForPosition(lines: seq<nat>, position: nat) returns (line: nat, col: nat)
    requires Sorted(lines)
    ensures 0 < line <= |lines| + 1
    ensures (forall i :: 0 <= i < line - 1 ==> lines[i] < position) && forall i :: line - 1 <= i < |lines| ==>
              position <= lines[i]
    ensures col == if line > 1 then position - lines[line - 2] else position + 1
  {
    var min: int, max: int := 0, |lines| - 1;
    while min <= max
      invariant 0 <= min <= max + 1 <= |lines|
      invariant forall i :: 0 <= i < min ==> lines[i] < position
      invariant forall i :: max < i < |lines| ==> position <= lines[i]
    {
      var mid := (max + min) / 2;
      if lines[mid] == position {
        min := mid;
        break;
      } else if lines[mid] < position {
        min := mid + 1;
      } else {
        max := mid - 1;
      }
    }
    line := min + 1;
    col := if min > 0 then position - lines[min - 1] else position + 1;
  }

  /** The recorded line ends are those of the text, in order. */
  lemma {:induction false} NewLinesExact(b: string, pos: nat)
    requires pos <= |b|
    ensures Sorted(NewLines(b, pos))
    ensures forall i :: i in NewLines(b, pos) <==> pos <= i < |b| && b[i] == '\n'
    decreases |b| - pos
  {
    if pos < |b| {
      NewLinesExact(b, pos + 1);
      var rest := NewLines(b, pos + 1);
      if b[pos] == '\n' {
        assert NewLines(b, pos) == [pos] + rest;
        assert forall i :: 0 <= i < |rest| ==> rest[i] in rest;
        assert forall i :: i in [pos] + rest <==> i == pos || i in rest;
      }
    }
  }

  lemma LastBefore(lines: seq<nat>, position: nat, k: nat, j: nat)
    requires Sorted(lines) && j < |lines| && k <= |lines| && lines[j] + 1 == position
    requires (forall i :: 0 <= i < k ==> lines[i] < position) && forall i :: k <= i < |lines| ==> position <= lines[i]
    ensures j == k - 1
  {
    assert j < k;
    assert lines[k - 1] <= lines[j];
  }

  /** The line found for a position is one more than the number of line ends before it, and the
      column counts from the last of them. */
  lemma {:induction false} LineIsCount(b: string, position: nat, k: nat)
    requires position <= |b| && k <= |NewLines(b, 0)|
    requires forall i :: 0 <= i < k ==> NewLines(b, 0)[i] < position
    requires forall i :: k <= i < |NewLines(b, 0)| ==> position <= NewLines(b, 0)[i]
    ensures k == CountNewLines(b, position)
    ensures k > 0 ==> b[NewLines(b, 0)[k - 1]] == '\n' && forall i :: NewLines(b, 0)[k - 1] < i < position ==>
              b[i] != '\n'
    ensures k == 0 ==> forall i :: 0 <= i < position ==> b[i] != '\n'
    decreases position
  {
    var lines := NewLines(b, 0);
    NewLinesExact(b, 0);
    if position > 0 {
      if b[position - 1] == '\n' {
        var j :| 0 <= j < |lines| && lines[j] == position - 1;
        LastBefore(lines, position, k, j);
        LineIsCount(b, position - 1, k - 1);
      } else {
        LineIsCount(b, position - 1, k);
      }
    }
  }
}
