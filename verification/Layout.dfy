/** Texts that differ only in what stands between the tokens. */
module Layout {
  import opened Gr = Grammar
  import opened Printing
  import opened Lexer
  import opened Source

  /** Blanks and comments, each comment closed by the end of its line. */
  ghost predicate IsGap(g: string) {
    g == [] ||
    if g[0] == '#' then exists n: nat :: CommentOf(g, n) && IsGap(g[n + 1..])
    else IsBlank(g[0]) && IsGap(g[1..])
  }

  /** The comment at the beginning, up to the line end at `n`. */
  predicate CommentOf(g: string, n: nat) {
    0 < n < |g| && g[0] == '#' && g[n] == '\n' && forall k :: 0 <= k < n ==> g[k] != '\n'
  }

  /** The texts of the tokens, each followed by a gap. */
  function Spread(ts: seq<Token>, gaps: seq<string>): string
    requires |gaps| == |ts|
  {
    if ts == [] then "" else ts[0].text + gaps[0] + Spread(ts[1..], gaps[1..])
  }

  /** A gap adds no token and no error, and leaves no comment open. */
  ghost predicate SameFrom(b: string, pos: nat, next: nat) {
    && pos <= next <= |b| && Places(b, pos) == Places(b, next) && (Closed(b, pos) <==> Closed(b, next))
    && ErrorRuns(b, pos, false) == ErrorRuns(b, next, false)
  }

  lemma BlankIsSkipped(b: string, pos: nat)
    requires pos < |b| && IsBlank(b[pos])
    ensures SameFrom(b, pos, pos + 1)
  {
    assert PieceAt(b, pos) == Blank(pos + 1);
  }

  lemma CommentIsSkipped(b: string, pos: nat, n: nat)
    requires pos + n < |b| && 0 < n && b[pos] == '#' && b[pos + n] == '\n'
    requires forall k :: pos <= k < pos + n ==> b[k] != '\n'
    ensures SameFrom(b, pos, pos + n + 1)
  {
    assert LineEnd(b, pos + 1) == pos + n;
    assert PieceAt(b, pos) == Comment(pos + n);
    BlankIsSkipped(b, pos + n);
    hide PieceAt;
    assert SameFrom(b, pos, pos + n);
  }

  lemma {:induction false} GapIsSkipped(b: string, pos: nat, g: string, rest: string)
    requires pos <= |b| && b[pos..] == g + rest && IsGap(g)
    ensures SameFrom(b, pos, pos + |g|) && b[pos + |g|..] == rest
    decreases |g|
  {
    hide SameFrom;
    SameStart(b, pos);
    if g == [] {
      assert g + rest == rest;
    } else if g[0] == '#' {
      var n: nat :| CommentOf(g, n) && IsGap(g[n + 1..]);
      GapAt(b, pos, g, rest, n + 1);
      CommentIsSkipped(b, pos, n);
      GapIsSkipped(b, pos + n + 1, g[n + 1..], rest);
      SameTrans(b, pos, pos + n + 1, pos + |g|);
    } else {
      GapAt(b, pos, g, rest, 1);
      BlankIsSkipped(b, pos);
      GapIsSkipped(b, pos + 1, g[1..], rest);
      SameTrans(b, pos, pos + 1, pos + |g|);
    }
  }

  lemma SameStart(b: string, pos: nat)
    requires pos <= |b|
    ensures SameFrom(b, pos, pos)
  {
  }

  lemma SameTrans(b: string, pos: nat, mid: nat, next: nat)
    requires SameFrom(b, pos, mid) && SameFrom(b, mid, next)
    ensures SameFrom(b, pos, next)
  {
  }

  lemma GapAt(b: string, pos: nat, g: string, rest: string, n: nat)
    requires pos <= |b| && b[pos..] == g + rest && n <= |g|
    ensures pos + |g| <= |b| && b[pos + n..] == g[n..] + rest && forall k :: 0 <= k < |g| ==> b[pos + k] == g[k]
  {
    var tail := b[pos..];
    assert forall k :: 0 <= k < |tail| ==> tail[k] == b[pos + k];
    assert tail[n..] == g[n..] + rest;
    assert b[pos + n..] == tail[n..];
  }

  /** A gap that is not empty begins with a character that ends the token before it. */
  lemma GapSeparates(g: string)
    requires IsGap(g) && g != []
    ensures Separates(g[0])
  {
  }

  ghost predicate AllGaps(gaps: seq<string>) {
    forall g :: g in gaps ==> IsGap(g) && g != []
  }

  /** Cutting a text with any gaps between its tokens gives the tokens. */
  lemma {:induction false} SpreadTokens(b: string, pos: nat, ts: seq<Token>, gaps: seq<string>)
    requires |gaps| == |ts| && AllGaps(gaps) && AllSpelled(ts) && pos <= |b| && b[pos..] == Spread(ts, gaps)
    ensures forall p :: p in Places(b, pos) ==> p.start + p.length <= |b|
    ensures TokensAt(b, Places(b, pos)) == ts && Closed(b, pos) && ErrorRuns(b, pos, false) == 0
    decreases |ts|
  {
    hide *;
    if ts == [] {
      SpreadNothing(gaps);
      NothingLeft(b, pos);
    } else {
      var end := pos + |ts[0].text|;
      SpreadParts(b, pos, ts, gaps);
      PieceOf(b, pos, ts[0]);
      GapIsSkipped(b, end, gaps[0], Spread(ts[1..], gaps[1..]));
      SpreadTokens(b, end + |gaps[0]|, ts[1..], gaps[1..]);
      TokenThen(b, pos, ts[0], end + |gaps[0]|);
      assert [ts[0]] + ts[1..] == ts;
    }
  }

  lemma SpreadNothing(gaps: seq<string>)
    requires gaps == []
    ensures Spread([], gaps) == []
  {
  }

  lemma SpreadParts(b: string, pos: nat, ts: seq<Token>, gaps: seq<string>)
    requires |gaps| == |ts| > 0 && AllGaps(gaps) && AllSpelled(ts) && pos <= |b| && b[pos..] == Spread(ts, gaps)
    ensures var text, g, end := ts[0].text, gaps[0], pos + |ts[0].text|;
            && end < |b| && WellSpelled(ts[0]) && |text| > 0 && b[pos..end] == text && Separates(b[end])
            && IsGap(g) && b[end..] == g + Spread(ts[1..], gaps[1..])
    ensures AllGaps(gaps[1..]) && AllSpelled(ts[1..])
  {
    hide *;
    var text, g, rest := ts[0].text, gaps[0], Spread(ts[1..], gaps[1..]);
    FirstSpelled(ts);
    FirstGap(gaps);
    GapSeparates(g);
    SpreadFirst(ts, gaps);
    GapAt(b, pos, text, g + rest, |text|);
    assert text[|text|..] + (g + rest) == g + rest;
    var end := pos + |text|;
    GapAt(b, end, g, rest, 0);
    assert b[end + 0] == g[0];
    assert b[pos..end] == text;
  }

  lemma SpreadFirst(ts: seq<Token>, gaps: seq<string>)
    requires |gaps| == |ts| > 0
    ensures Spread(ts, gaps) == ts[0].text + (gaps[0] + Spread(ts[1..], gaps[1..]))
  {
  }

  lemma FirstSpelled(ts: seq<Token>)
    requires AllSpelled(ts) && ts != []
    ensures WellSpelled(ts[0]) && |ts[0].text| > 0 && AllSpelled(ts[1..])
  {
    assert ts[0] in ts;
    assert WellSpelled(ts[0]) && |ts[0].text| > 0;
    hide WellSpelled;
    forall t | t in ts[1..] ensures t in ts {}
  }

  lemma FirstGap(gaps: seq<string>)
    requires AllGaps(gaps) && gaps != []
    ensures IsGap(gaps[0]) && gaps[0] != [] && AllGaps(gaps[1..])
  {
    hide IsGap;
    assert gaps[0] in gaps;
    forall g | g in gaps[1..] ensures g in gaps {}
  }

  lemma NothingLeft(b: string, pos: nat)
    requires pos <= |b| && b[pos..] == []
    ensures Places(b, pos) == [] && TokensAt(b, []) == [] && Closed(b, pos) && ErrorRuns(b, pos, false) == 0
  {
  }

  /** A token, a gap, and what comes after it. */
  lemma TokenThen(b: string, pos: nat, t: Token, next: nat)
    requires pos + |t.text| <= |b| && |t.text| > 0 && PieceAt(b, pos) == Lexeme(t.kind, pos + |t.text|)
    requires b[pos..pos + |t.text|] == t.text && SameFrom(b, pos + |t.text|, next)
    requires forall p :: p in Places(b, next) ==> p.start + p.length <= |b|
    requires Closed(b, next) && ErrorRuns(b, next, false) == 0
    ensures forall p :: p in Places(b, pos) ==> p.start + p.length <= |b|
    ensures TokensAt(b, Places(b, pos)) == [t] + TokensAt(b, Places(b, next))
    ensures Closed(b, pos) && ErrorRuns(b, pos, false) == 0
  {
    var place, rest := Place(t.kind, pos, |t.text|), Places(b, next);
    hide *;
    PlacesThen(b, pos, t, next);
    TokensThen(b, place, rest);
  }

  lemma PlacesThen(b: string, pos: nat, t: Token, next: nat)
    requires pos + |t.text| <= |b| && |t.text| > 0 && PieceAt(b, pos) == Lexeme(t.kind, pos + |t.text|)
    requires SameFrom(b, pos + |t.text|, next) && Closed(b, next) && ErrorRuns(b, next, false) == 0
    ensures Places(b, pos) == [Place(t.kind, pos, |t.text|)] + Places(b, next)
    ensures Closed(b, pos) && ErrorRuns(b, pos, false) == 0
  {
    hide PieceAt;
  }

  lemma TokensThen(b: string, p: Place, rest: seq<Place>)
    requires p.start + p.length <= |b| && forall q :: q in rest ==> q.start + q.length <= |b|
    ensures forall q :: q in [p] + rest ==> q.start + q.length <= |b|
    ensures TokensAt(b, [p] + rest) == [Token(p.kind, b[p.start..p.start + p.length])] + TokensAt(b, rest)
  {
    hide *;
    var all := [p] + rest;
    assert all[1..] == rest && all[0] == p;
    Source.FirstToken(b, all);
  }

  /** Any mix of blanks and closed comments before, between and after the tokens reads the same. */
  lemma GapsMakeNoDifference(g: Gr.Grammar, lead: string, ts: seq<Token>, gaps: seq<string>)
    requires |gaps| == |ts| && AllGaps(gaps) && AllSpelled(ts) && IsGap(lead)
    ensures Front(g, lead + Spread(ts, gaps)) == Front(g, Render(ts))
  {
    var b := lead + Spread(ts, gaps);
    assert b[0..] == b;
    GapIsSkipped(b, 0, lead, Spread(ts, gaps));
    SpreadTokens(b, |lead|, ts, gaps);
    RenderRoundTrip(ts);
    NoErrorRuns(Render(ts), 0, ts);
    assert Render(ts)[0..] == Render(ts);
    hide Render, Places, Closed, ErrorRuns, TokensAt, Spread;
  }

}
