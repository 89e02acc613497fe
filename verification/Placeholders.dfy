/**
 document-placeholder-policy.ts, lines 255-399: the placeholder tokens of a document.

 Content is structured when it is brace-free text interleaved with created tokens.
 On such content the parser returns exactly those tokens, resolution replaces exactly
 the targeted ones, and resolving two placeholders that share no target token gives the
 same result in either order. Masking and restoring is the identity on any content
 without the mask character.
 */
module Placeholders {
  import opened Texts

  const OPEN: CodeUnit := 123
  const CLOSE: CodeUnit := 125
  const COLON: CodeUnit := 58
  const MASK: CodeUnit := 0xE100
  const PREFIX: Text := [123, 123, 84, 69, 68, 95, 80, 76, 65, 67, 69, 72, 79, 76, 68, 69, 82, 58]

  // ----- tokens -----

  predicate IsIdUnit(u: CodeUnit) {
    IsDigit(u) || 65 <= u <= 90 || 97 <= u <= 122 || u == 46 || u == 95 || u == 45
  }

  predicate IsPlainUnit(u: CodeUnit) {
    u != OPEN && u != CLOSE
  }

  predicate All(p: CodeUnit -> bool, t: Text) {
    forall i :: 0 <= i < |t| ==> p(t[i])
  }

  predicate IsBraceFree(t: Text) {
    All(IsPlainUnit, t)
  }

  predicate IsId(id: Text) {
    id != [] && All(IsIdUnit, id)
  }

  predicate IsLabel(t: Text) {
    IsTrimmed(t) && IsBraceFree(t)
  }

  function TrimStart(t: Text): Text {
    if t != [] && IsWhitespace(t[0]) then TrimStart(t[1..]) else t
  }

  function TrimEnd(t: Text): Text {
    if t != [] && IsWhitespace(t[|t| - 1]) then TrimEnd(t[..|t| - 1]) else t
  }

  /** `trim()` */
  function Trim(t: Text): Text {
    TrimEnd(TrimStart(t))
  }

  lemma {:induction false} StartIsVisible(t: Text)
    ensures TrimStart(t) != [] ==> !IsWhitespace(TrimStart(t)[0])
  {
    if t != [] && IsWhitespace(t[0]) {
      StartIsVisible(t[1..]);
    }
  }

  lemma {:induction false} EndIsVisible(t: Text)
    ensures TrimEnd(t) != [] ==> !IsWhitespace(TrimEnd(t)[|TrimEnd(t)| - 1]) && t != [] && TrimEnd(t)[0] == t[0]
  {
    if t != [] && IsWhitespace(t[|t| - 1]) {
      EndIsVisible(t[..|t| - 1]);
    }
  }

  lemma {:induction false} TrimIsTrimmed(t: Text)
    ensures Trim(t) == [] || IsTrimmed(Trim(t))
  {
    StartIsVisible(t);
    EndIsVisible(TrimStart(t));
  }

  lemma {:induction false} TrimKeepsTrimmed(t: Text)
    requires IsTrimmed(t)
    ensures Trim(t) == t
  {
  }

  datatype Created = NotCreated | Created(token: Text)

  function TokenText(id: Text, cleanLabel: Text): Text {
    PREFIX + (id + ([COLON] + (cleanLabel + [CLOSE, CLOSE])))
  }

  /** createDocumentPlaceholderToken */
  function CreateToken(id: Text, tokenLabel: Text): Created {
    if IsId(Trim(id)) && Trim(tokenLabel) != [] && IsBraceFree(Trim(tokenLabel)) then Created(TokenText(Trim(id), Trim(tokenLabel)))
    else NotCreated
  }

  // ----- the token pattern -----

  /** Length of the longest run of matching units at the start of a text. */
  function RunLength(p: CodeUnit -> bool, t: Text): (n: nat)
    ensures n <= |t| && All(p, t[..n]) && (n < |t| ==> !p(t[n]))
  {
    if t != [] && p(t[0]) then
      var n := RunLength(p, t[1..]);
      assert t[..1 + n] == [t[0]] + t[1..][..n];
      1 + n
    else 0
  }

  datatype Match = NoMatch | Match(id: Text, tokenLabel: Text, length: nat)

  /** The token pattern after its fixed prefix; its runs leave nothing to backtrack over. */
  function MatchBody(t: Text): (m: Match)
    ensures m.Match? ==> 5 <= m.length <= |t|
  {
    var n := RunLength(IsIdUnit, t);
    if n == 0 || n == |t| || t[n] != COLON then NoMatch
    else
      var tail := t[n + 1..];
      var k := RunLength(IsPlainUnit, tail);
      if k == 0 || !StartsWith(tail[k..], [CLOSE, CLOSE]) then NoMatch
      else Match(t[..n], tail[..k], n + 1 + k + 2)
  }

  /** The token pattern anchored at the start of a text. */
  function MatchHere(t: Text): (m: Match)
    ensures m.Match? ==> 0 < m.length <= |t|
  {
    if !StartsWith(t, PREFIX) then NoMatch
    else
      var m := MatchBody(t[|PREFIX|..]);
      if m.NoMatch? then NoMatch else Match(m.id, Trim(m.tokenLabel), |PREFIX| + m.length)
  }

  datatype Token = Token(id: Text, tokenLabel: Text, text: Text, start: nat, end: nat)

  /** A pattern anchored at the start of a text; its matches are not empty. */
  ghost predicate IsPattern(p: Text -> Match) {
    forall t :: p(t).Match? ==> 0 < p(t).length <= |t|
  }

  type Pattern = p: Text -> Match | IsPattern(p) witness (t: Text) => NoMatch

  const TOKEN_PATTERN: Pattern := MatchHere

  function TokenAt(rest: Text, m: Match, at: nat): Token
    requires m.Match? && m.length <= |rest|
  {
    Token(m.id, m.tokenLabel, rest[..m.length], at, at + m.length)
  }

  /** Every match from the left, without overlaps. */
  function ScanFor(p: Pattern, t: Text, at: nat): seq<Token>
    decreases |t|
  {
    if t == [] then []
    else
      var m := p(t);
      if m.Match? then [TokenAt(t, m, at)] + ScanFor(p, t[m.length..], at + m.length)
      else ScanFor(p, t[1..], at + 1)
  }

  function Scan(t: Text, at: nat): seq<Token> {
    ScanFor(TOKEN_PATTERN, t, at)
  }

  lemma {:induction false} ScanStep(p: Pattern, content: Text, at: nat)
    requires at < |content|
    ensures var m := p(content[at..]);
            ScanFor(p, content[at..], at) ==
            if m.Match? then [TokenAt(content[at..], m, at)] + ScanFor(p, content[at + m.length..], at + m.length)
            else ScanFor(p, content[at + 1..], at + 1)
  {
    var rest := content[at..];
    var m := p(rest);
    assert rest[1..] == content[at + 1..];
    if m.Match? {
      assert rest[m.length..] == content[at + m.length..];
    }
  }

  /** One step of the search: the match at an offset, or nothing there. */
  method NextMatch(p: Pattern, content: Text, at: nat) returns (found: seq<Token>, next: nat)
    requires at < |content|
    ensures at < next <= |content| && ScanFor(p, content[at..], at) == found + ScanFor(p, content[next..], next)
  {
    var m := p(content[at..]);
    ScanStep(p, content, at);
    if m.Match? {
      found, next := [TokenAt(content[at..], m, at)], at + m.length;
    } else {
      found, next := [], at + 1;
    }
  }

  lemma {:induction false} Regroup<T>(a: seq<T>, b: seq<T>, c: seq<T>)
    ensures a + (b + c) == (a + b) + c
  {
  }

  /** The `exec` loop of a global pattern. */
  method MatchAll(p: Pattern, content: Text) returns (tokens: seq<Token>)
    ensures tokens == ScanFor(p, content, 0)
  {
    tokens := [];
    var lastIndex := 0;
    ghost var left := ScanFor(p, content, 0);
    assert content[0..] == content;
    while lastIndex < |content|
      invariant lastIndex <= |content|
      invariant left == ScanFor(p, content[lastIndex..], lastIndex)
      invariant tokens + left == ScanFor(p, content, 0)
    {
      var found, next := NextMatch(p, content, lastIndex);
      Regroup(tokens, found, ScanFor(p, content[next..], next));
      tokens, lastIndex, left := tokens + found, next, ScanFor(p, content[next..], next);
    }
  }

  /** parseDocumentPlaceholderTokens */
  method ParseTokens(content: Text) returns (tokens: seq<Token>)
    ensures tokens == Scan(content, 0)
  {
    tokens := MatchAll(TOKEN_PATTERN, content);
  }

  // ----- structured content -----

  datatype Piece = Plain(text: Text) | Declared(id: Text, tokenLabel: Text)

  predicate IsPiece(p: Piece) {
    match p
    case Plain(t) => IsBraceFree(t)
    case Declared(id, tokenLabel) => IsId(id) && IsLabel(tokenLabel)
  }

  predicate ArePieces(pieces: seq<Piece>) {
    forall i :: 0 <= i < |pieces| ==> IsPiece(pieces[i])
  }

  function TextOf(p: Piece): Text {
    match p case Plain(t) => t case Declared(id, tokenLabel) => TokenText(id, tokenLabel)
  }

  function Render(pieces: seq<Piece>): Text {
    if pieces == [] then [] else TextOf(pieces[0]) + Render(pieces[1..])
  }

  function WrittenHere(p: Piece, at: nat): seq<Token> {
    if p.Declared? then [Token(p.id, p.tokenLabel, TextOf(p), at, at + |TextOf(p)|)] else []
  }

  /** The declared tokens with the offsets at which they were written. */
  function Written(pieces: seq<Piece>, at: nat): seq<Token> {
    if pieces == [] then [] else WrittenHere(pieces[0], at) + Written(pieces[1..], at + |TextOf(pieces[0])|)
  }

  lemma {:induction false} RunIs(p: CodeUnit -> bool, run: Text, rest: Text)
    requires All(p, run) && (rest == [] || !p(rest[0]))
    ensures RunLength(p, run + rest) == |run|
    decreases |run|
  {
    if run == [] {
      assert run + rest == rest;
    } else {
      assert (run + rest)[1..] == run[1..] + rest;
      RunIs(p, run[1..], rest);
    }
  }

  lemma {:induction false} LabelMatches(cleanLabel: Text, rest: Text)
    requires IsLabel(cleanLabel)
    ensures var tail := cleanLabel + ([CLOSE, CLOSE] + rest);
            RunLength(IsPlainUnit, tail) == |cleanLabel| && tail[..|cleanLabel|] == cleanLabel && StartsWith(tail[|cleanLabel|..], [CLOSE, CLOSE])
  {
    var tail := cleanLabel + ([CLOSE, CLOSE] + rest);
    RunIs(IsPlainUnit, cleanLabel, [CLOSE, CLOSE] + rest);
    assert tail[|cleanLabel|..] == [CLOSE, CLOSE] + rest;
  }

  lemma {:induction false} BodyMatches(id: Text, cleanLabel: Text, rest: Text)
    requires IsId(id) && IsLabel(cleanLabel)
    ensures MatchBody(id + ([COLON] + (cleanLabel + ([CLOSE, CLOSE] + rest)))) == Match(id, cleanLabel, |id| + 1 + |cleanLabel| + 2)
  {
    var tail := cleanLabel + ([CLOSE, CLOSE] + rest);
    var t := id + ([COLON] + tail);
    RunIs(IsIdUnit, id, [COLON] + tail);
    assert t[..|id|] == id && t[|id|] == COLON && t[|id| + 1..] == tail;
    LabelMatches(cleanLabel, rest);
  }

  lemma {:induction false} PrefixPasses(prefix: Text, rest: Text)
    ensures StartsWith(prefix + rest, prefix) && (prefix + rest)[|prefix|..] == rest
  {
  }

  lemma {:induction false} TokenRegroups(prefix: Text, id: Text, cleanLabel: Text, rest: Text)
    ensures prefix + (id + ([COLON] + (cleanLabel + [CLOSE, CLOSE]))) + rest == prefix + (id + ([COLON] + (cleanLabel + ([CLOSE, CLOSE] + rest))))
  {
    assert cleanLabel + [CLOSE, CLOSE] + rest == cleanLabel + ([CLOSE, CLOSE] + rest);
  }

  lemma {:induction false} TokenMatches(id: Text, cleanLabel: Text, rest: Text)
    requires IsId(id) && IsLabel(cleanLabel)
    ensures MatchHere(TokenText(id, cleanLabel) + rest) == Match(id, cleanLabel, |TokenText(id, cleanLabel)|)
  {
    var body := id + ([COLON] + (cleanLabel + ([CLOSE, CLOSE] + rest)));
    TokenRegroups(PREFIX, id, cleanLabel, rest);
    PrefixPasses(PREFIX, body);
    BodyMatches(id, cleanLabel, rest);
    TrimKeepsTrimmed(cleanLabel);
  }

  lemma {:induction false} PrefixStartsWithBraces(t: Text)
    requires StartsWith(t, PREFIX)
    ensures |t| > 2 && t[0] == OPEN && t[1] == OPEN && t[2] != OPEN
  {
    assert t[..|PREFIX|][0] == OPEN && t[..|PREFIX|][1] == OPEN && t[..|PREFIX|][2] == 84;
  }

  /** The pattern matches nothing without an opening brace, and matches created tokens whole. */
  ghost predicate Recognises(p: Pattern) {
    && (forall t :: t != [] && t[0] != OPEN ==> p(t).NoMatch?)
    && (forall id, cleanLabel, rest :: IsId(id) && IsLabel(cleanLabel) ==> TakesToken(p, id, cleanLabel, rest))
  }

  predicate TakesToken(p: Pattern, id: Text, cleanLabel: Text, rest: Text) {
    p(TokenText(id, cleanLabel) + rest) == Match(id, cleanLabel, |TokenText(id, cleanLabel)|)
  }

  lemma {:induction false} TokenPatternRecognises()
    ensures Recognises(TOKEN_PATTERN)
  {
    forall t | t != [] && t[0] != OPEN ensures MatchHere(t).NoMatch? {
      if StartsWith(t, PREFIX) {
        PrefixStartsWithBraces(t);
      }
    }
    forall id, cleanLabel, rest | IsId(id) && IsLabel(cleanLabel) ensures TakesToken(TOKEN_PATTERN, id, cleanLabel, rest) {
      TokenMatches(id, cleanLabel, rest);
    }
  }

  lemma {:induction false} PlainIsSkipped(p: Pattern, plain: Text, rest: Text, at: nat)
    requires Recognises(p) && IsBraceFree(plain)
    ensures ScanFor(p, plain + rest, at) == ScanFor(p, rest, at + |plain|)
    decreases |plain|
  {
    if plain == [] {
      assert plain + rest == rest;
    } else {
      var t := plain + rest;
      assert t[0] == plain[0] && t[1..] == plain[1..] + rest;
      PlainIsSkipped(p, plain[1..], rest, at + 1);
    }
  }

  /** Scanning a text that starts with `head` yields `own` and goes on after it. */
  predicate StepsOver(scan: (Text, nat) -> seq<Token>, head: Text, own: seq<Token>, rest: Text, at: nat) {
    scan(head + rest, at) == own + scan(rest, at + |head|)
  }

  predicate ScansPiece(scan: (Text, nat) -> seq<Token>, piece: Piece, rest: Text, at: nat) {
    StepsOver(scan, TextOf(piece), WrittenHere(piece, at), rest, at)
  }

  function ScannerFor(p: Pattern): (Text, nat) -> seq<Token> {
    (t: Text, at: nat) => ScanFor(p, t, at)
  }

  lemma {:induction false} PlainIsSteppedOver(p: Pattern, plain: Text, rest: Text, at: nat)
    requires Recognises(p) && IsBraceFree(plain)
    ensures StepsOver(ScannerFor(p), plain, [], rest, at)
  {
    PlainIsSkipped(p, plain, rest, at);
  }

  lemma {:induction false} MatchIsSteppedOver(p: Pattern, t: Text, rest: Text, at: nat, id: Text, cleanLabel: Text)
    requires t != [] && p(t + rest) == Match(id, cleanLabel, |t|)
    ensures StepsOver(ScannerFor(p), t, [Token(id, cleanLabel, t, at, at + |t|)], rest, at)
  {
    PrefixPasses(t, rest);
    assert (t + rest)[..|t|] == t;
  }

  lemma {:induction false} TokenIsSteppedOver(p: Pattern, id: Text, cleanLabel: Text, rest: Text, at: nat)
    requires Recognises(p) && IsId(id) && IsLabel(cleanLabel)
    ensures ScansPiece(ScannerFor(p), Declared(id, cleanLabel), rest, at)
  {
    hide StepsOver, ScanFor, IsId, IsLabel, ScannerFor;
    assert TakesToken(p, id, cleanLabel, rest);
    MatchIsSteppedOver(p, TokenText(id, cleanLabel), rest, at, id, cleanLabel);
  }

  lemma {:induction false} PieceIsScanned(p: Pattern, piece: Piece, rest: Text, at: nat)
    requires Recognises(p) && IsPiece(piece)
    ensures ScansPiece(ScannerFor(p), piece, rest, at)
  {
    match piece
    case Plain(t) => PlainIsSteppedOver(p, t, rest, at);
    case Declared(id, cleanLabel) => TokenIsSteppedOver(p, id, cleanLabel, rest, at);
  }

  /** A scanner that steps over every piece returns what was written. */
  lemma {:induction false} PiecesAreScanned(scan: (Text, nat) -> seq<Token>, pieces: seq<Piece>, at: nat)
    requires forall i, rest, k: nat :: 0 <= i < |pieces| ==> ScansPiece(scan, pieces[i], rest, k)
    requires forall k: nat :: scan([], k) == []
    ensures scan(Render(pieces), at) == Written(pieces, at)
    decreases |pieces|
  {
    if pieces != [] {
      var rest := pieces[1..];
      forall i, t, k: nat | 0 <= i < |rest| ensures ScansPiece(scan, rest[i], t, k) {
        assert rest[i] == pieces[i + 1];
      }
      PiecesAreScanned(scan, rest, at + |TextOf(pieces[0])|);
      assert ScansPiece(scan, pieces[0], Render(rest), at);
    }
  }

  lemma {:induction false} RecognisedIsWritten(p: Pattern, pieces: seq<Piece>, at: nat)
    requires Recognises(p) && ArePieces(pieces)
    ensures ScanFor(p, Render(pieces), at) == Written(pieces, at)
  {
    forall i, rest, k: nat | 0 <= i < |pieces| ensures ScansPiece(ScannerFor(p), pieces[i], rest, k) {
      PieceIsScanned(p, pieces[i], rest, k);
    }
    PiecesAreScanned(ScannerFor(p), pieces, at);
  }

  /** The parser returns exactly the tokens that were written, at their offsets. */
  lemma {:induction false} ParseReturnsWritten(pieces: seq<Piece>, at: nat)
    requires ArePieces(pieces)
    ensures Scan(Render(pieces), at) == Written(pieces, at)
  {
    TokenPatternRecognises();
    RecognisedIsWritten(TOKEN_PATTERN, pieces, at);
  }

  /** What is created is a structured token. */
  lemma {:induction false} CreatedIsDeclared(id: Text, tokenLabel: Text)
    requires CreateToken(id, tokenLabel).Created?
    ensures IsPiece(Declared(Trim(id), Trim(tokenLabel))) && CreateToken(id, tokenLabel).token == TextOf(Declared(Trim(id), Trim(tokenLabel)))
  {
    TrimIsTrimmed(tokenLabel);
  }

  // ----- masking -----

  datatype Masked = Masked(text: Text, preserved: seq<Text>)

  function MaskFrom(t: Text, preserved: seq<Text>): Masked
    decreases |t|
  {
    if t == [] then Masked([], preserved)
    else
      var m := MatchHere(t);
      if m.Match? then
        var rest := MaskFrom(t[m.length..], preserved + [t[..m.length]]);
        Masked([MASK] + (NatText(|preserved|) + ([MASK] + rest.text)), rest.preserved)
      else
        var rest := MaskFrom(t[1..], preserved);
        Masked([t[0]] + rest.text, rest.preserved)
  }

  /** maskDeclaredDocumentPlaceholderTokens */
  function Mask(content: Text): Masked {
    MaskFrom(content, [])
  }

  function Restored(digits: Text, preserved: seq<Text>): Text
    requires AllDigits(digits)
  {
    if NatValue(digits) < |preserved| then preserved[NatValue(digits)] else []
  }

  /** restore: replaces every masked index by what was preserved under it. */
  function Restore(t: Text, preserved: seq<Text>): Text
    decreases |t|
  {
    if t == [] then []
    else
      var n := RunLength(IsDigit, t[1..]);
      if t[0] == MASK && n > 0 && n + 1 < |t| && t[n + 1] == MASK then
        assert t[1..][..n] == t[1..n + 1];
        Restored(t[1..n + 1], preserved) + Restore(t[n + 2..], preserved)
      else [t[0]] + Restore(t[1..], preserved)
  }

  lemma {:induction false} MaskPreserves(t: Text, preserved: seq<Text>)
    ensures preserved <= MaskFrom(t, preserved).preserved
    decreases |t|
  {
    if t != [] {
      var m := MatchHere(t);
      if m.Match? {
        MaskPreserves(t[m.length..], preserved + [t[..m.length]]);
      } else {
        MaskPreserves(t[1..], preserved);
      }
    }
  }

  lemma {:induction false} MaskedParts(mask: CodeUnit, digits: Text, rest: Text)
    ensures var t, n := [mask] + (digits + ([mask] + rest)), |digits|;
            && t[0] == mask && t[1..] == digits + ([mask] + rest)
            && t[1..n + 1] == digits && t[n + 1] == mask && t[n + 2..] == rest
  {
  }

  lemma {:induction false} RestoreMasked(t: Text, digits: Text, rest: Text, preserved: seq<Text>)
    requires t == [MASK] + (digits + ([MASK] + rest)) && digits != [] && AllDigits(digits)
    ensures Restore(t, preserved) == Restored(digits, preserved) + Restore(rest, preserved)
  {
    RunIs(IsDigit, digits, [MASK] + rest);
    MaskedParts(MASK, digits, rest);
  }

  lemma {:induction false} RestoreIndex(k: nat, rest: Text, preserved: seq<Text>)
    requires k < |preserved|
    ensures Restore([MASK] + (NatText(k) + ([MASK] + rest)), preserved) == preserved[k] + Restore(rest, preserved)
  {
    RestoreMasked([MASK] + (NatText(k) + ([MASK] + rest)), NatText(k), rest, preserved);
    NatRoundTrip(k);
  }

  lemma {:induction false} RestoreUnit(u: CodeUnit, rest: Text, preserved: seq<Text>)
    requires u != MASK
    ensures Restore([u] + rest, preserved) == [u] + Restore(rest, preserved)
  {
    assert ([u] + rest)[1..] == rest;
  }

  lemma {:induction false} MaskMatched(t: Text, preserved: seq<Text>, n: nat)
    requires t != [] && MatchHere(t).Match? && n == MatchHere(t).length
    ensures var m := MaskFrom(t[n..], preserved + [t[..n]]);
            MaskFrom(t, preserved) == Masked([MASK] + (NatText(|preserved|) + ([MASK] + m.text)), m.preserved)
  {
  }

  lemma {:induction false} RestoreMatched(t: Text, preserved: seq<Text>, n: nat, m: Masked)
    requires t != [] && MatchHere(t).Match? && n == MatchHere(t).length
    requires m == MaskFrom(t[n..], preserved + [t[..n]]) && Restore(m.text, m.preserved) == t[n..]
    ensures Restore(MaskFrom(t, preserved).text, MaskFrom(t, preserved).preserved) == t
  {
    MaskMatched(t, preserved, n);
    MaskPreserves(t[n..], preserved + [t[..n]]);
    LastPreserved(preserved, t[..n], m.preserved);
    RestoreIndex(|preserved|, m.text, m.preserved);
    TakeDrop(t, n);
  }

  lemma {:induction false} LastPreserved(preserved: seq<Text>, token: Text, all: seq<Text>)
    requires preserved + [token] <= all
    ensures |preserved| < |all| && all[|preserved|] == token
  {
    assert (preserved + [token])[|preserved|] == token;
  }

  lemma {:induction false} TakeDrop(t: Text, n: nat)
    requires n <= |t|
    ensures t[..n] + t[n..] == t
  {
  }

  lemma {:induction false} RestoreUndoesMaskFrom(t: Text, preserved: seq<Text>)
    requires MASK !in t
    ensures Restore(MaskFrom(t, preserved).text, MaskFrom(t, preserved).preserved) == t
    decreases |t|
  {
    if t != [] {
      var m := MatchHere(t);
      if m.Match? {
        assert forall u :: u in t[m.length..] ==> u in t;
        RestoreUndoesMaskFrom(t[m.length..], preserved + [t[..m.length]]);
        RestoreMatched(t, preserved, m.length, MaskFrom(t[m.length..], preserved + [t[..m.length]]));
      } else {
        assert forall u :: u in t[1..] ==> u in t;
        RestoreUndoesMaskFrom(t[1..], preserved);
        assert t[0] in t;
        RestoreUnit(t[0], MaskFrom(t[1..], preserved).text, MaskFrom(t[1..], preserved).preserved);
        assert [t[0]] + t[1..] == t;
      }
    }
  }

  /** Restoring what was masked gives the content back. */
  lemma {:induction false} RestoreUndoesMask(content: Text)
    requires MASK !in content
    ensures Restore(Mask(content).text, Mask(content).preserved) == content
  {
    RestoreUndoesMaskFrom(content, []);
  }

  // ----- resolving -----

  /** `shared` is empty when no shared resolution key is declared. */
  datatype Placeholder = Placeholder(id: Text, tokenLabel: Text, shared: Text)

  datatype Entry = Entry(key: Text, content: Text)

  datatype Resolution = Failed | Resolved(contents: seq<Entry>, unresolved: seq<Placeholder>, ids: seq<Text>)

  datatype Selection = NoSelection | Selected(placeholder: Placeholder)

  function Find(placeholders: seq<Placeholder>, id: Text): Selection {
    if placeholders == [] then NoSelection
    else if placeholders[0].id == id then Selected(placeholders[0])
    else Find(placeholders[1..], id)
  }

  /** shouldResolve */
  predicate IsTarget(selected: Placeholder, p: Placeholder) {
    p.id == selected.id || (selected.shared != [] && p.shared == selected.shared)
  }

  function Targets(placeholders: seq<Placeholder>, selected: Placeholder): (r: seq<Placeholder>)
    ensures forall p :: p in r <==> p in placeholders && IsTarget(selected, p)
  {
    if placeholders == [] then []
    else if IsTarget(selected, placeholders[0]) then [placeholders[0]] + Targets(placeholders[1..], selected)
    else Targets(placeholders[1..], selected)
  }

  function Remaining(placeholders: seq<Placeholder>, selected: Placeholder): (r: seq<Placeholder>)
    ensures forall p :: p in r <==> p in placeholders && !IsTarget(selected, p)
  {
    if placeholders == [] then []
    else if IsTarget(selected, placeholders[0]) then Remaining(placeholders[1..], selected)
    else [placeholders[0]] + Remaining(placeholders[1..], selected)
  }

  function Ids(placeholders: seq<Placeholder>): seq<Text> {
    if placeholders == [] then []
    else
      var front, last := Ids(placeholders[..|placeholders| - 1]), placeholders[|placeholders| - 1].id;
      if last in front then front else front + [last]
  }

  /** The created token, or nothing. */
  function TokenOf(p: Placeholder): Text {
    match CreateToken(p.id, p.tokenLabel)
    case Created(token) => token
    case NotCreated => []
  }

  function TokensOf(targets: seq<Placeholder>): (r: seq<Text>)
    ensures |r| == |targets|
  {
    if targets == [] then [] else TokensOf(targets[..|targets| - 1]) + [TokenOf(targets[|targets| - 1])]
  }

  predicate AreTokens(tokens: seq<Text>) {
    forall i :: 0 <= i < |tokens| ==> tokens[i] != []
  }

  predicate HaveTokens(targets: seq<Placeholder>) {
    AreTokens(TokensOf(targets))
  }

  /** `split(token).join(answer)` */
  function ReplaceAll(t: Text, token: Text, answer: Text): Text
    requires token != []
    decreases |t|
  {
    if t == [] then []
    else if StartsWith(t, token) then answer + ReplaceAll(t[|token|..], token, answer)
    else [t[0]] + ReplaceAll(t[1..], token, answer)
  }

  /** Replaces one token after the other. */
  function ReplaceTokens(t: Text, tokens: seq<Text>, answer: Text): Text
    requires AreTokens(tokens)
  {
    if tokens == [] then t
    else ReplaceAll(ReplaceTokens(t, tokens[..|tokens| - 1], answer), tokens[|tokens| - 1], answer)
  }

  function ReplaceTargets(t: Text, targets: seq<Placeholder>, answer: Text): Text
    requires HaveTokens(targets)
  {
    ReplaceTokens(t, TokensOf(targets), answer)
  }

  function ReplaceInAll(contents: seq<Entry>, tokens: seq<Text>, answer: Text): (r: seq<Entry>)
    requires AreTokens(tokens)
    ensures |r| == |contents|
    ensures forall i :: 0 <= i < |r| ==> r[i] == Entry(contents[i].key, ReplaceTokens(contents[i].content, tokens, answer))
  {
    if contents == [] then []
    else [Entry(contents[0].key, ReplaceTokens(contents[0].content, tokens, answer))] + ReplaceInAll(contents[1..], tokens, answer)
  }

  /** resolveDocumentPlaceholders */
  function Resolve(contents: seq<Entry>, placeholders: seq<Placeholder>, id: Text, answer: Text): Resolution {
    var selection := Find(placeholders, id);
    if Trim(answer) == [] || selection.NoSelection? then Failed
    else
      var targets := Targets(placeholders, selection.placeholder);
      if !HaveTokens(targets) then Failed
      else Resolved(ReplaceInAll(contents, TokensOf(targets), Trim(answer)), Remaining(placeholders, selection.placeholder), Ids(targets))
  }

  predicate Includes(t: Text, token: Text) {
    exists at: nat :: at <= |t| && OccursAt(t, token, at)
  }

  lemma {:induction false} NotIncludedLater(t: Text, token: Text)
    requires t != [] && token != [] && !Includes(t, token)
    ensures !StartsWith(t, token) && !Includes(t[1..], token)
  {
    assert StartsWith(t, token) ==> OccursAt(t, token, 0);
    forall at: nat | at <= |t| - 1 ensures !OccursAt(t[1..], token, at) {
      assert !OccursAt(t, token, at + 1);
      assert at + 1 + |token| <= |t| ==> t[1..][at..at + |token|] == t[at + 1..at + 1 + |token|];
    }
  }

  lemma {:induction false} ReplaceNothing(t: Text, token: Text, answer: Text)
    requires token != [] && !Includes(t, token)
    ensures ReplaceAll(t, token, answer) == t
    decreases |t|
  {
    hide OccursAt, StartsWith, Includes;
    if t != [] {
      NotIncludedLater(t, token);
      ReplaceNothing(t[1..], token, answer);
    }
  }

  /** The inner loop: one target's token in every section that contains it. */
  method ReplaceToken(contents: seq<Entry>, token: Text, answer: Text) returns (updated: seq<Entry>)
    requires token != []
    ensures |updated| == |contents|
    ensures forall i :: 0 <= i < |contents| ==> updated[i] == Entry(contents[i].key, ReplaceAll(contents[i].content, token, answer))
  {
    updated := contents;
    for i := 0 to |contents|
      invariant |updated| == |contents|
      invariant forall k :: 0 <= k < i ==> updated[k] == Entry(contents[k].key, ReplaceAll(contents[k].content, token, answer))
      invariant forall k :: i <= k < |contents| ==> updated[k] == contents[k]
    {
      if Includes(contents[i].content, token) {
        updated := updated[i := Entry(contents[i].key, ReplaceAll(contents[i].content, token, answer))];
      } else {
        ReplaceNothing(contents[i].content, token, answer);
      }
    }
  }

  lemma {:induction false} ReplaceOneMoreToken(t: Text, tokens: seq<Text>, token: Text, answer: Text)
    requires AreTokens(tokens) && token != []
    ensures AreTokens(tokens + [token])
    ensures ReplaceTokens(t, tokens + [token], answer) == ReplaceAll(ReplaceTokens(t, tokens, answer), token, answer)
  {
    assert (tokens + [token])[..|tokens|] == tokens;
  }

  lemma {:induction false} ReplaceOneMoreInAll(contents: seq<Entry>, tokens: seq<Text>, token: Text, answer: Text, updated: seq<Entry>)
    requires AreTokens(tokens) && token != [] && |updated| == |contents|
    requires var before := ReplaceInAll(contents, tokens, answer);
             forall i :: 0 <= i < |contents| ==> updated[i] == Entry(before[i].key, ReplaceAll(before[i].content, token, answer))
    ensures AreTokens(tokens + [token]) && updated == ReplaceInAll(contents, tokens + [token], answer)
  {
    ReplaceOneMoreToken([], tokens, token, answer);
    forall i | 0 <= i < |contents| ensures updated[i] == ReplaceInAll(contents, tokens + [token], answer)[i] {
      ReplaceOneMoreToken(contents[i].content, tokens, token, answer);
    }
  }

  lemma {:induction false} TokensGrow(front: seq<Placeholder>, last: Placeholder)
    ensures TokensOf(front + [last]) == TokensOf(front) + [TokenOf(last)]
  {
    assert (front + [last])[..|front|] == front;
  }

  lemma {:induction false} TokensUpTo(targets: seq<Placeholder>, n: nat)
    requires n < |targets|
    ensures TokensOf(targets[..n + 1]) == TokensOf(targets[..n]) + [TokenOf(targets[n])]
  {
    TokensGrow(targets[..n], targets[n]);
    assert targets[..n + 1] == targets[..n] + [targets[n]];
  }

  lemma {:induction false} TokenAmong(targets: seq<Placeholder>, n: nat)
    requires n < |targets|
    ensures TokensOf(targets)[n] == TokenOf(targets[n])
    decreases |targets|
  {
    if n < |targets| - 1 {
      TokenAmong(targets[..|targets| - 1], n);
    }
  }

  /** The loops over targets and sections. */
  method ReplaceEach(contents: seq<Entry>, targets: seq<Placeholder>, answer: Text) returns (ok: bool, updated: seq<Entry>)
    ensures ok <==> HaveTokens(targets)
    ensures ok ==> updated == ReplaceInAll(contents, TokensOf(targets), answer)
  {
    updated := contents;
    ghost var tokens: seq<Text> := [];
    for n := 0 to |targets|
      invariant AreTokens(tokens) && tokens == TokensOf(targets[..n])
      invariant updated == ReplaceInAll(contents, tokens, answer)
    {
      var token := TokenOf(targets[n]);
      TokenAmong(targets, n);
      if token == [] {
        return false, contents;
      }
      updated := ReplaceToken(updated, token, answer);
      ReplaceOneMoreInAll(contents, tokens, token, answer, updated);
      TokensUpTo(targets, n);
      tokens := tokens + [token];
    }
    assert targets[..|targets|] == targets;
    ok := true;
  }

  method ResolvePlaceholders(contents: seq<Entry>, placeholders: seq<Placeholder>, id: Text, answer: Text) returns (r: Resolution)
    ensures r == Resolve(contents, placeholders, id, answer)
  {
    var clean := Trim(answer);
    var selection := Find(placeholders, id);
    if clean == [] || selection.NoSelection? {
      return Failed;
    }
    var targets := Targets(placeholders, selection.placeholder);
    var ok, updated := ReplaceEach(contents, targets, clean);
    if !ok {
      return Failed;
    }
    r := Resolved(updated, Remaining(placeholders, selection.placeholder), Ids(targets));
  }

  // ----- what resolution does to structured content -----

  predicate TokenIs(p: Placeholder, id: Text, tokenLabel: Text) {
    Trim(p.id) == id && Trim(p.tokenLabel) == tokenLabel
  }

  predicate IsTargeted(targets: seq<Placeholder>, id: Text, tokenLabel: Text) {
    exists i :: 0 <= i < |targets| && TokenIs(targets[i], id, tokenLabel)
  }

  function SubstituteOne(pieces: seq<Piece>, id: Text, tokenLabel: Text, answer: Text): (r: seq<Piece>)
    ensures |r| == |pieces|
    ensures forall i :: 0 <= i < |r| ==> r[i] == (if pieces[i] == Declared(id, tokenLabel) then Plain(answer) else pieces[i])
  {
    if pieces == [] then []
    else [if pieces[0] == Declared(id, tokenLabel) then Plain(answer) else pieces[0]] + SubstituteOne(pieces[1..], id, tokenLabel, answer)
  }

  /** The targeted tokens replaced by the answer; all other text and tokens as they were. */
  function Substitute(pieces: seq<Piece>, targets: seq<Placeholder>, answer: Text): (r: seq<Piece>)
    ensures |r| == |pieces|
    ensures forall i :: 0 <= i < |r| ==>
      r[i] == (if pieces[i].Declared? && IsTargeted(targets, pieces[i].id, pieces[i].tokenLabel) then Plain(answer) else pieces[i])
  {
    if pieces == [] then []
    else
      var p := pieces[0];
      [if p.Declared? && IsTargeted(targets, p.id, p.tokenLabel) then Plain(answer) else p] + Substitute(pieces[1..], targets, answer)
  }

  lemma {:induction false} TokenStartsWithBraces(id: Text, tokenLabel: Text)
    ensures var t := TokenText(id, tokenLabel); |t| > 2 && t[0] == OPEN && t[1] == OPEN && t[2] == 84
  {
    assert |PREFIX| == 18 && PREFIX[0] == OPEN && PREFIX[1] == OPEN && PREFIX[2] == 84;
  }

  /** Text without an opening brace contains no start of a token. */
  lemma {:induction false} SkipUnopened(plain: Text, rest: Text, token: Text, answer: Text)
    requires OPEN !in plain && token != [] && token[0] == OPEN
    ensures ReplaceAll(plain + rest, token, answer) == plain + ReplaceAll(rest, token, answer)
    decreases |plain|
  {
    if plain == [] {
      assert plain + rest == rest;
    } else {
      var t := plain + rest;
      assert plain[0] in plain;
      assert t[1..] == plain[1..] + rest;
      assert forall u :: u in plain[1..] ==> u in plain;
      if |token| <= |t| {
        assert t[..|token|][0] == t[0];
      }
      SkipUnopened(plain[1..], rest, token, answer);
      assert [plain[0]] + plain[1..] == plain;
    }
  }

  lemma {:induction false} BodyIsUnopened(id: Text, tokenLabel: Text)
    requires IsId(id) && IsLabel(tokenLabel)
    ensures OPEN !in TokenText(id, tokenLabel)[2..]
  {
    var body := id + ([COLON] + (tokenLabel + [CLOSE, CLOSE]));
    assert OPEN !in body;
    var tail := PREFIX[2..];
    assert OPEN !in tail;
    assert TokenText(id, tokenLabel)[2..] == tail + body;
  }

  lemma {:induction false} DifferentTokenDoesNotStart(id: Text, tokenLabel: Text, rest: Text, id': Text, label': Text)
    requires IsId(id) && IsLabel(tokenLabel) && IsId(id') && IsLabel(label')
    requires StartsWith(TokenText(id, tokenLabel) + rest, TokenText(id', label'))
    ensures id == id' && tokenLabel == label'
  {
    var t, token := TokenText(id, tokenLabel) + rest, TokenText(id', label');
    assert t == token + t[|token|..];
    TokenMatches(id, tokenLabel, rest);
    TokenMatches(id', label', t[|token|..]);
  }

  lemma {:induction false} OtherTokenIsSkipped(id: Text, tokenLabel: Text, rest: Text, id': Text, label': Text, answer: Text)
    requires IsId(id) && IsLabel(tokenLabel) && IsId(id') && IsLabel(label') && (id != id' || tokenLabel != label')
    ensures ReplaceAll(TokenText(id, tokenLabel) + rest, TokenText(id', label'), answer)
         == TokenText(id, tokenLabel) + ReplaceAll(rest, TokenText(id', label'), answer)
  {
    var own, token := TokenText(id, tokenLabel), TokenText(id', label');
    if StartsWith(own + rest, token) {
      DifferentTokenDoesNotStart(id, tokenLabel, rest, id', label');
    }
    TokenStartsWithBraces(id, tokenLabel);
    TokenStartsWithBraces(id', label');
    BodyIsUnopened(id, tokenLabel);
    SecondBraceIsNoStart(own, rest, token);
    SkipUnopened(own[2..], rest, token, answer);
    SkipTwo(own, rest, token, answer);
  }

  lemma {:induction false} SecondBraceIsNoStart(own: Text, rest: Text, token: Text)
    requires |own| > 2 && own[2] == 84 && |token| > 2 && token[1] == OPEN
    ensures !StartsWith(own[1..] + rest, token)
  {
    var t := own[1..] + rest;
    assert t[1] == own[2];
    if |token| <= |t| {
      assert t[..|token|][1] == t[1];
    }
  }

  lemma {:induction false} SkipTwo(own: Text, rest: Text, token: Text, answer: Text)
    requires |own| > 2 && token != [] && !StartsWith(own + rest, token) && !StartsWith(own[1..] + rest, token)
    requires ReplaceAll(own[2..] + rest, token, answer) == own[2..] + ReplaceAll(rest, token, answer)
    ensures ReplaceAll(own + rest, token, answer) == own + ReplaceAll(rest, token, answer)
  {
    assert (own + rest)[1..] == own[1..] + rest;
    assert (own[1..] + rest)[1..] == own[2..] + rest;
    assert [own[0]] + ([own[1]] + (own[2..] + ReplaceAll(rest, token, answer))) == own + ReplaceAll(rest, token, answer);
  }

  lemma {:induction false} OwnTokenIsReplaced(token: Text, rest: Text, answer: Text)
    requires token != []
    ensures ReplaceAll(token + rest, token, answer) == answer + ReplaceAll(rest, token, answer)
  {
    PrefixPasses(token, rest);
  }

  /** Replacing one token in structured content replaces exactly its occurrences. */
  lemma {:induction false} ReplaceIsSubstitute(pieces: seq<Piece>, id: Text, tokenLabel: Text, answer: Text)
    requires ArePieces(pieces) && IsId(id) && IsLabel(tokenLabel)
    ensures ReplaceAll(Render(pieces), TokenText(id, tokenLabel), answer) == Render(SubstituteOne(pieces, id, tokenLabel, answer))
    decreases |pieces|
  {
    if pieces != [] {
      var p, rest := pieces[0], Render(pieces[1..]);
      var token := TokenText(id, tokenLabel);
      ReplaceIsSubstitute(pieces[1..], id, tokenLabel, answer);
      assert SubstituteOne(pieces, id, tokenLabel, answer)[1..] == SubstituteOne(pieces[1..], id, tokenLabel, answer);
      TokenStartsWithBraces(id, tokenLabel);
      if p.Plain? {
        assert OPEN !in p.text;
        SkipUnopened(p.text, rest, token, answer);
      } else if p == Declared(id, tokenLabel) {
        OwnTokenIsReplaced(token, rest, answer);
      } else {
        OtherTokenIsSkipped(p.id, p.tokenLabel, rest, id, tokenLabel, answer);
      }
    }
  }

  lemma {:induction false} TargetedStep(front: seq<Placeholder>, last: Placeholder, id: Text, tokenLabel: Text)
    ensures IsTargeted(front + [last], id, tokenLabel) <==> IsTargeted(front, id, tokenLabel) || TokenIs(last, id, tokenLabel)
  {
    var targets := front + [last];
    if IsTargeted(front, id, tokenLabel) {
      var i :| 0 <= i < |front| && TokenIs(front[i], id, tokenLabel);
      assert TokenIs(targets[i], id, tokenLabel);
    }
    if TokenIs(last, id, tokenLabel) {
      assert TokenIs(targets[|front|], id, tokenLabel);
    }
  }

  lemma {:induction false} SubstituteStep(pieces: seq<Piece>, front: seq<Placeholder>, last: Placeholder, answer: Text)
    ensures Substitute(pieces, front + [last], answer)
         == SubstituteOne(Substitute(pieces, front, answer), Trim(last.id), Trim(last.tokenLabel), answer)
  {
    var left := Substitute(pieces, front + [last], answer);
    var right := SubstituteOne(Substitute(pieces, front, answer), Trim(last.id), Trim(last.tokenLabel), answer);
    forall i | 0 <= i < |pieces| ensures left[i] == right[i] {
      if pieces[i].Declared? {
        TargetedStep(front, last, pieces[i].id, pieces[i].tokenLabel);
      }
    }
  }

  lemma {:induction false} SubstituteKeepsPieces(pieces: seq<Piece>, targets: seq<Placeholder>, answer: Text)
    requires ArePieces(pieces) && IsBraceFree(answer)
    ensures ArePieces(Substitute(pieces, targets, answer))
  {
  }

  lemma {:induction false} OneTargetIsSubstitution(pieces: seq<Piece>, front: seq<Placeholder>, last: Placeholder, answer: Text)
    requires ArePieces(pieces) && IsBraceFree(answer) && TokenOf(last) != []
    ensures ReplaceAll(Render(Substitute(pieces, front, answer)), TokenOf(last), answer)
         == Render(Substitute(pieces, front + [last], answer))
  {
    SubstituteKeepsPieces(pieces, front, answer);
    CreatedIsDeclared(last.id, last.tokenLabel);
    ReplaceIsSubstitute(Substitute(pieces, front, answer), Trim(last.id), Trim(last.tokenLabel), answer);
    SubstituteStep(pieces, front, last, answer);
  }

  lemma {:induction false} ReplaceOneMore(t: Text, front: seq<Placeholder>, last: Placeholder, answer: Text)
    requires HaveTokens(front) && TokenOf(last) != []
    ensures HaveTokens(front + [last])
    ensures ReplaceTargets(t, front + [last], answer) == ReplaceAll(ReplaceTargets(t, front, answer), TokenOf(last), answer)
  {
    TokensGrow(front, last);
    ReplaceOneMoreToken(t, TokensOf(front), TokenOf(last), answer);
  }

  lemma {:induction false} SubstituteNothing(pieces: seq<Piece>, answer: Text)
    ensures Substitute(pieces, [], answer) == pieces
  {
  }

  lemma {:induction false} FrontHasTokens(targets: seq<Placeholder>, n: nat)
    requires HaveTokens(targets) && n <= |targets|
    ensures HaveTokens(targets[..n]) && (n > 0 ==> TokenOf(targets[n - 1]) != [])
  {
    forall i | 0 <= i < n ensures TokensOf(targets[..n])[i] == TokensOf(targets)[i] {
      TokenAmong(targets[..n], i);
      TokenAmong(targets, i);
    }
    if n > 0 {
      TokenAmong(targets, n - 1);
    }
  }

  lemma {:induction false} ResolutionUpTo(pieces: seq<Piece>, targets: seq<Placeholder>, n: nat, answer: Text)
    requires ArePieces(pieces) && IsBraceFree(answer) && HaveTokens(targets) && n <= |targets|
    ensures HaveTokens(targets[..n])
    ensures ReplaceTargets(Render(pieces), targets[..n], answer) == Render(Substitute(pieces, targets[..n], answer))
    decreases n
  {
    if n == 0 {
      SubstituteNothing(pieces, answer);
    } else {
      FrontHasTokens(targets, n);
      ResolutionUpTo(pieces, targets, n - 1, answer);
      ResolutionGrows(pieces, targets[..n - 1], targets[n - 1], answer);
      FrontStep(targets, n);
    }
  }

  lemma {:induction false} FrontStep(targets: seq<Placeholder>, n: nat)
    requires 0 < n <= |targets|
    ensures targets[..n - 1] + [targets[n - 1]] == targets[..n]
  {
  }

  /** Resolution replaces every occurrence of the targeted tokens and leaves everything else verbatim. */
  lemma {:induction false} ResolutionIsSubstitution(pieces: seq<Piece>, targets: seq<Placeholder>, answer: Text)
    requires ArePieces(pieces) && IsBraceFree(answer) && HaveTokens(targets)
    ensures ReplaceTargets(Render(pieces), targets, answer) == Render(Substitute(pieces, targets, answer))
  {
    ResolutionUpTo(pieces, targets, |targets|, answer);
    assert targets[..|targets|] == targets;
  }

  lemma {:induction false} ResolutionGrows(pieces: seq<Piece>, front: seq<Placeholder>, last: Placeholder, answer: Text)
    requires ArePieces(pieces) && IsBraceFree(answer) && HaveTokens(front) && TokenOf(last) != []
    requires ReplaceTargets(Render(pieces), front, answer) == Render(Substitute(pieces, front, answer))
    ensures HaveTokens(front + [last])
    ensures ReplaceTargets(Render(pieces), front + [last], answer) == Render(Substitute(pieces, front + [last], answer))
  {
    ReplaceOneMore(Render(pieces), front, last, answer);
    OneTargetIsSubstitution(pieces, front, last, answer);
  }

  // ----- the order of two resolutions -----

  lemma {:induction false} FindIsMember(placeholders: seq<Placeholder>, id: Text)
    ensures Find(placeholders, id).Selected? ==> Find(placeholders, id).placeholder in placeholders && Find(placeholders, id).placeholder.id == id
    ensures Find(placeholders, id).NoSelection? ==> forall p :: p in placeholders ==> p.id != id
  {
    if placeholders != [] {
      FindIsMember(placeholders[1..], id);
    }
  }

  /** What one resolution leaves still offers the other one its selection, unless it was resolved with the first. */
  lemma {:induction false} OtherIsFound(placeholders: seq<Placeholder>, a: Placeholder, id: Text)
    requires Find(placeholders, id).Selected? && !IsTarget(a, Find(placeholders, id).placeholder)
    ensures Find(Remaining(placeholders, a), id) == Find(placeholders, id)
  {
    if placeholders[0].id != id {
      OtherIsFound(placeholders[1..], a, id);
    }
  }

  lemma {:induction false} RemainingCommute(placeholders: seq<Placeholder>, a: Placeholder, b: Placeholder)
    ensures Remaining(Remaining(placeholders, a), b) == Remaining(Remaining(placeholders, b), a)
    decreases |placeholders|
  {
    if placeholders != [] {
      RemainingCommute(placeholders[1..], a, b);
      HeadOfRemaining(placeholders, a, b);
      HeadOfRemaining(placeholders, b, a);
    }
  }

  lemma {:induction false} HeadOfRemaining(placeholders: seq<Placeholder>, a: Placeholder, b: Placeholder)
    requires placeholders != []
    ensures var rest := Remaining(placeholders[1..], a);
            Remaining(placeholders, a) == if IsTarget(a, placeholders[0]) then rest else [placeholders[0]] + rest
    ensures !IsTarget(a, placeholders[0]) ==> ([placeholders[0]] + Remaining(placeholders[1..], a))[1..] == Remaining(placeholders[1..], a)
    ensures !IsTarget(a, placeholders[0]) ==>
      Remaining(Remaining(placeholders, a), b) ==
      (if IsTarget(b, placeholders[0]) then Remaining(Remaining(placeholders[1..], a), b)
       else [placeholders[0]] + Remaining(Remaining(placeholders[1..], a), b))
  {
  }

  lemma {:induction false} TokensOfMembers(targets: seq<Placeholder>)
    ensures HaveTokens(targets) <==> forall p :: p in targets ==> TokenOf(p) != []
  {
    if targets != [] {
      var front, last := targets[..|targets| - 1], targets[|targets| - 1];
      TokensOfMembers(front);
      assert targets == front + [last];
      assert TokensOf(targets) == TokensOf(front) + [TokenOf(last)];
      LastOfTokens(TokensOf(front), TokenOf(last));
    }
  }

  lemma {:induction false} LastOfTokens(front: seq<Text>, last: Text)
    ensures AreTokens(front + [last]) <==> AreTokens(front) && last != []
  {
    if AreTokens(front + [last]) {
      assert (front + [last])[|front|] == last;
      assert forall i :: 0 <= i < |front| ==> front[i] == (front + [last])[i];
    }
  }

  lemma {:induction false} TargetedMembers(targets: seq<Placeholder>, id: Text, tokenLabel: Text)
    ensures IsTargeted(targets, id, tokenLabel) <==> exists p :: p in targets && TokenIs(p, id, tokenLabel)
  {
    if IsTargeted(targets, id, tokenLabel) {
      var i :| 0 <= i < |targets| && TokenIs(targets[i], id, tokenLabel);
      assert targets[i] in targets;
    }
  }

  /** The second resolution targets what is left of its targets: those tokens that the first one has not answered, and maybe others of the first. */
  lemma {:induction false} LeftTargets(placeholders: seq<Placeholder>, a: Placeholder, b: Placeholder, id: Text, tokenLabel: Text)
    ensures var t, u, left := Targets(placeholders, a), Targets(placeholders, b), Targets(Remaining(placeholders, a), b);
      && (IsTargeted(left, id, tokenLabel) ==> IsTargeted(u, id, tokenLabel))
      && (IsTargeted(u, id, tokenLabel) && !IsTargeted(t, id, tokenLabel) ==> IsTargeted(left, id, tokenLabel))
  {
    TargetedMembers(Targets(placeholders, a), id, tokenLabel);
    TargetedMembers(Targets(placeholders, b), id, tokenLabel);
    TargetedMembers(Targets(Remaining(placeholders, a), b), id, tokenLabel);
  }

  /** Every token of `t` answered with `a`, every other token of `u` with `b`. */
  function Answered(pieces: seq<Piece>, t: seq<Placeholder>, a: Text, u: seq<Placeholder>, b: Text): (r: seq<Piece>)
    ensures |r| == |pieces|
    ensures forall i :: 0 <= i < |r| ==> r[i] == AnsweredPiece(pieces[i], t, a, u, b)
  {
    if pieces == [] then [] else [AnsweredPiece(pieces[0], t, a, u, b)] + Answered(pieces[1..], t, a, u, b)
  }

  function AnsweredPiece(p: Piece, t: seq<Placeholder>, a: Text, u: seq<Placeholder>, b: Text): Piece {
    if p.Declared? && IsTargeted(t, p.id, p.tokenLabel) then Plain(a)
    else if p.Declared? && IsTargeted(u, p.id, p.tokenLabel) then Plain(b)
    else p
  }

  /** A token that both resolutions target. */
  predicate IsContested(p: Piece, t: seq<Placeholder>, u: seq<Placeholder>) {
    p.Declared? && IsTargeted(t, p.id, p.tokenLabel) && IsTargeted(u, p.id, p.tokenLabel)
  }

  predicate SomeContested(pieces: seq<Piece>, t: seq<Placeholder>, u: seq<Placeholder>) {
    exists i :: 0 <= i < |pieces| && IsContested(pieces[i], t, u)
  }

  predicate AnyContested(structure: seq<seq<Piece>>, t: seq<Placeholder>, u: seq<Placeholder>) {
    exists i :: 0 <= i < |structure| && SomeContested(structure[i], t, u)
  }

  /** Two resolutions one after the other: a token keeps the answer that came first. */
  lemma {:induction false} FirstAnswerStays(pieces: seq<Piece>, placeholders: seq<Placeholder>, p: Placeholder, a: Text, q: Placeholder, b: Text)
    requires ArePieces(pieces) && IsBraceFree(a) && IsBraceFree(b)
    requires HaveTokens(Targets(placeholders, p)) && HaveTokens(Targets(Remaining(placeholders, p), q))
    ensures ReplaceTargets(ReplaceTargets(Render(pieces), Targets(placeholders, p), a), Targets(Remaining(placeholders, p), q), b)
         == Render(Answered(pieces, Targets(placeholders, p), a, Targets(placeholders, q), b))
  {
    var t, u, left := Targets(placeholders, p), Targets(placeholders, q), Targets(Remaining(placeholders, p), q);
    ResolutionIsSubstitution(pieces, t, a);
    SubstituteKeepsPieces(pieces, t, a);
    ResolutionIsSubstitution(Substitute(pieces, t, a), left, b);
    forall i | 0 <= i < |pieces| ensures Substitute(Substitute(pieces, t, a), left, b)[i] == Answered(pieces, t, a, u, b)[i] {
      if pieces[i].Declared? {
        LeftTargets(placeholders, p, q, pieces[i].id, pieces[i].tokenLabel);
      }
    }
    assert Substitute(Substitute(pieces, t, a), left, b) == Answered(pieces, t, a, u, b);
  }

  /** How much longer the text gets when the contested tokens get an answer that is `k` units longer. */
  function Growth(pieces: seq<Piece>, t: seq<Placeholder>, u: seq<Placeholder>, k: int): int {
    if pieces == [] then 0 else (if IsContested(pieces[0], t, u) then k else 0) + Growth(pieces[1..], t, u, k)
  }

  lemma {:induction false} GrowthHasSign(pieces: seq<Piece>, t: seq<Placeholder>, u: seq<Placeholder>, k: int)
    ensures k >= 0 ==> Growth(pieces, t, u, k) >= 0
    ensures k <= 0 ==> Growth(pieces, t, u, k) <= 0
    ensures k != 0 && SomeContested(pieces, t, u) ==> Growth(pieces, t, u, k) != 0
  {
    if pieces != [] {
      GrowthHasSign(pieces[1..], t, u, k);
      assert forall i :: 1 <= i < |pieces| ==> pieces[i] == pieces[1..][i - 1];
    }
  }

  lemma {:induction false} PieceGrows(p: Piece, t: seq<Placeholder>, a: Text, u: seq<Placeholder>, b: Text)
    ensures |TextOf(AnsweredPiece(p, t, a, u, b))| == |TextOf(AnsweredPiece(p, u, b, t, a))| + if IsContested(p, t, u) then |a| - |b| else 0
  {
  }

  lemma {:induction false} AnsweredLengths(pieces: seq<Piece>, t: seq<Placeholder>, a: Text, u: seq<Placeholder>, b: Text)
    ensures |Render(Answered(pieces, t, a, u, b))| == |Render(Answered(pieces, u, b, t, a))| + Growth(pieces, t, u, |a| - |b|)
  {
    if pieces != [] {
      AnsweredLengths(pieces[1..], t, a, u, b);
      RenderAnswered(pieces, t, a, u, b);
      RenderAnswered(pieces, u, b, t, a);
      PieceGrows(pieces[0], t, a, u, b);
    }
  }

  lemma {:induction false} RenderAnswered(pieces: seq<Piece>, t: seq<Placeholder>, a: Text, u: seq<Placeholder>, b: Text)
    requires pieces != []
    ensures Render(Answered(pieces, t, a, u, b)) == TextOf(AnsweredPiece(pieces[0], t, a, u, b)) + Render(Answered(pieces[1..], t, a, u, b))
  {
    assert Answered(pieces, t, a, u, b)[1..] == Answered(pieces[1..], t, a, u, b);
  }

  lemma {:induction false} Cancel(a: Text, b: Text, c: Text, d: Text)
    requires a + b == c + d && |a| == |c|
    ensures a == c && b == d
  {
    assert (a + b)[..|a|] == a && (c + d)[..|a|] == c;
    assert (a + b)[|a|..] == b && (c + d)[|a|..] == d;
  }

  lemma {:induction false} SameLengthOrder(pieces: seq<Piece>, t: seq<Placeholder>, a: Text, u: seq<Placeholder>, b: Text)
    requires |a| == |b| && Render(Answered(pieces, t, a, u, b)) == Render(Answered(pieces, u, b, t, a))
    ensures SomeContested(pieces, t, u) ==> a == b
  {
    if pieces != [] {
      var x, y := AnsweredPiece(pieces[0], t, a, u, b), AnsweredPiece(pieces[0], u, b, t, a);
      RenderAnswered(pieces, t, a, u, b);
      RenderAnswered(pieces, u, b, t, a);
      Cancel(TextOf(x), Render(Answered(pieces[1..], t, a, u, b)), TextOf(y), Render(Answered(pieces[1..], u, b, t, a)));
      SameLengthOrder(pieces[1..], t, a, u, b);
      assert forall i :: 1 <= i < |pieces| ==> pieces[i] == pieces[1..][i - 1];
    }
  }

  lemma {:induction false} SameAnswered(pieces: seq<Piece>, t: seq<Placeholder>, a: Text, u: seq<Placeholder>, b: Text)
    requires a == b || !SomeContested(pieces, t, u)
    ensures Answered(pieces, t, a, u, b) == Answered(pieces, u, b, t, a)
  {
    forall i | 0 <= i < |pieces| ensures Answered(pieces, t, a, u, b)[i] == Answered(pieces, u, b, t, a)[i] {
      assert a == b || !IsContested(pieces[i], t, u);
    }
  }

  /** The order shows in a text exactly if it holds a contested token and the answers differ. */
  lemma {:induction false} OrderShowsExactly(pieces: seq<Piece>, t: seq<Placeholder>, a: Text, u: seq<Placeholder>, b: Text)
    ensures Render(Answered(pieces, t, a, u, b)) == Render(Answered(pieces, u, b, t, a)) <==> a == b || !SomeContested(pieces, t, u)
  {
    hide Render, Answered, Growth, SomeContested;
    if a == b || !SomeContested(pieces, t, u) {
      SameAnswered(pieces, t, a, u, b);
    } else if Render(Answered(pieces, t, a, u, b)) == Render(Answered(pieces, u, b, t, a)) {
      AnsweredLengths(pieces, t, a, u, b);
      GrowthHasSign(pieces, t, u, |a| - |b|);
      SameLengthOrder(pieces, t, a, u, b);
    }
  }

  predicate IsStructured(contents: seq<Entry>, structure: seq<seq<Piece>>) {
    |contents| == |structure| && forall i :: 0 <= i < |contents| ==> ArePieces(structure[i]) && contents[i].content == Render(structure[i])
  }

  function AnsweredAll(contents: seq<Entry>, structure: seq<seq<Piece>>, t: seq<Placeholder>, a: Text, u: seq<Placeholder>, b: Text): (r: seq<Entry>)
    requires |contents| == |structure|
    ensures |r| == |contents|
    ensures forall i :: 0 <= i < |r| ==> r[i] == Entry(contents[i].key, Render(Answered(structure[i], t, a, u, b)))
  {
    if contents == [] then []
    else [Entry(contents[0].key, Render(Answered(structure[0], t, a, u, b)))] + AnsweredAll(contents[1..], structure[1..], t, a, u, b)
  }

  /** The second of two resolutions, when the first has not taken its selection: it succeeds, and the first answers stay. */
  lemma {:induction false} SecondResolution(contents: seq<Entry>, structure: seq<seq<Piece>>, placeholders: seq<Placeholder>, x: Text, a: Text, y: Text, b: Text)
    requires IsStructured(contents, structure) && IsBraceFree(Trim(a)) && IsBraceFree(Trim(b))
    requires Resolve(contents, placeholders, x, a).Resolved? && Resolve(contents, placeholders, y, b).Resolved?
    requires !IsTarget(Find(placeholders, x).placeholder, Find(placeholders, y).placeholder)
    ensures var p, q, first := Find(placeholders, x).placeholder, Find(placeholders, y).placeholder, Resolve(contents, placeholders, x, a);
            var second := Resolve(first.contents, first.unresolved, y, b);
            && second.Resolved?
            && second.contents == AnsweredAll(contents, structure, Targets(placeholders, p), Trim(a), Targets(placeholders, q), Trim(b))
            && second.unresolved == Remaining(Remaining(placeholders, p), q)
  {
    var p, q := Find(placeholders, x).placeholder, Find(placeholders, y).placeholder;
    var t, u, left := Targets(placeholders, p), Targets(placeholders, q), Targets(Remaining(placeholders, p), q);
    OtherIsFound(placeholders, p, y);
    TokensOfMembers(u);
    TokensOfMembers(left);
    var first := ReplaceInAll(contents, TokensOf(t), Trim(a));
    var second := ReplaceInAll(first, TokensOf(left), Trim(b));
    forall i | 0 <= i < |contents| ensures second[i] == AnsweredAll(contents, structure, t, Trim(a), u, Trim(b))[i] {
      FirstAnswerStays(structure[i], placeholders, p, Trim(a), q, Trim(b));
    }
    assert second == AnsweredAll(contents, structure, t, Trim(a), u, Trim(b));
  }

  lemma {:induction false} OrdersAgreeExactly(contents: seq<Entry>, structure: seq<seq<Piece>>, t: seq<Placeholder>, a: Text, u: seq<Placeholder>, b: Text)
    requires |contents| == |structure|
    ensures AnsweredAll(contents, structure, t, a, u, b) == AnsweredAll(contents, structure, u, b, t, a)
       <==> a == b || !AnyContested(structure, t, u)
  {
    var xy, yx := AnsweredAll(contents, structure, t, a, u, b), AnsweredAll(contents, structure, u, b, t, a);
    forall i | 0 <= i < |contents| ensures xy[i] == yx[i] <==> a == b || !SomeContested(structure[i], t, u) {
      OrderShowsExactly(structure[i], t, a, u, b);
    }
    if xy == yx && a != b {
      assert forall i :: 0 <= i < |structure| ==> xy[i] == yx[i];
    }
  }

  /**
   Two resolutions, neither of which resolves the other's selection: both orders
   succeed and leave the same open placeholders, and the contents are the same exactly
   if the answers are, or no token that both target occurs.
   */
  lemma {:induction false} ResolutionsCommute(contents: seq<Entry>, structure: seq<seq<Piece>>, placeholders: seq<Placeholder>, x: Text, a: Text, y: Text, b: Text)
    requires IsStructured(contents, structure) && IsBraceFree(Trim(a)) && IsBraceFree(Trim(b))
    requires Resolve(contents, placeholders, x, a).Resolved? && Resolve(contents, placeholders, y, b).Resolved?
    requires !IsTarget(Find(placeholders, x).placeholder, Find(placeholders, y).placeholder)
    ensures var t, u := Targets(placeholders, Find(placeholders, x).placeholder), Targets(placeholders, Find(placeholders, y).placeholder);
            var first, second := Resolve(contents, placeholders, x, a), Resolve(contents, placeholders, y, b);
            var xy, yx := Resolve(first.contents, first.unresolved, y, b), Resolve(second.contents, second.unresolved, x, a);
            && xy.Resolved? && yx.Resolved? && xy.unresolved == yx.unresolved
            && (xy.contents == yx.contents <==> Trim(a) == Trim(b) || !AnyContested(structure, t, u))
  {
    hide Resolve, ReplaceInAll, IsStructured, AnsweredAll, AnyContested;
    ResolvesASelection(contents, placeholders, x, a);
    ResolvesASelection(contents, placeholders, y, b);
    var p, q := Find(placeholders, x).placeholder, Find(placeholders, y).placeholder;
    StructuredLength(contents, structure);
    SecondResolution(contents, structure, placeholders, x, a, y, b);
    SecondResolution(contents, structure, placeholders, y, b, x, a);
    RemainingCommute(placeholders, p, q);
    OrdersAgreeExactly(contents, structure, Targets(placeholders, p), Trim(a), Targets(placeholders, q), Trim(b));
  }

  lemma {:induction false} ResolvesASelection(contents: seq<Entry>, placeholders: seq<Placeholder>, x: Text, a: Text)
    requires Resolve(contents, placeholders, x, a).Resolved?
    ensures Find(placeholders, x).Selected?
  {
  }

  lemma {:induction false} StructuredLength(contents: seq<Entry>, structure: seq<seq<Piece>>)
    requires IsStructured(contents, structure)
    ensures |contents| == |structure|
  {
  }

  predicate HaveDistinctIds(placeholders: seq<Placeholder>) {
    forall i, j :: 0 <= i < j < |placeholders| ==> placeholders[i].id != placeholders[j].id
  }

  /** Where identifiers are distinct, a resolution leaves another one possible exactly if it has not resolved its selection. */
  lemma {:induction false} SecondSucceedsExactly(contents: seq<Entry>, placeholders: seq<Placeholder>, x: Text, a: Text, y: Text, b: Text)
    requires HaveDistinctIds(placeholders)
    requires Resolve(contents, placeholders, x, a).Resolved? && Resolve(contents, placeholders, y, b).Resolved?
    ensures Resolve(Resolve(contents, placeholders, x, a).contents, Resolve(contents, placeholders, x, a).unresolved, y, b).Resolved?
       <==> !IsTarget(Find(placeholders, x).placeholder, Find(placeholders, y).placeholder)
  {
    var p, q := Find(placeholders, x).placeholder, Find(placeholders, y).placeholder;
    FindIsMember(placeholders, y);
    if IsTarget(p, q) {
      FindIsMember(Remaining(placeholders, p), y);
      forall r | r in Remaining(placeholders, p) ensures r.id != y {
        var i :| 0 <= i < |placeholders| && placeholders[i] == r;
        var j :| 0 <= j < |placeholders| && placeholders[j] == q;
        assert i != j;
      }
    } else {
      OtherIsFound(placeholders, p, y);
      TokensOfMembers(Targets(placeholders, q));
      TokensOfMembers(Targets(Remaining(placeholders, p), q));
    }
  }
}
