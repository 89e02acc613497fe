/**
 document-placeholder-policy.ts, lines 10-11 and 255-399: what trimming, creating, parsing,
 masking and selecting mean, each said without the function that does it and for any
 content, structured or not.
 */
module PlaceholderRules {
  import opened Texts
  import opened Placeholders

  // ----- trimming and creating -----

  /** The part of the text between its leading and its trailing white space. */
  ghost predicate IsTrimOf(t: Text, r: Text) {
    exists a: nat, b: nat :: IsVisiblePart(t, a, b) && r == t[a..b]
  }

  /** Everything outside is white space, and what is inside neither starts nor ends with any. */
  predicate IsVisiblePart(t: Text, a: nat, b: nat) {
    a <= b <= |t| && IsBlankOutside(t, a, b) && (a == b || (!IsWhitespace(t[a]) && !IsWhitespace(t[b - 1])))
  }

  predicate IsBlankOutside(t: Text, a: nat, b: nat) {
    forall i :: 0 <= i < |t| && (i < a || b <= i) ==> IsWhitespace(t[i])
  }

  lemma {:induction false} StartIsCut(t: Text) returns (a: nat)
    ensures a <= |t| && TrimStart(t) == t[a..] && forall i :: 0 <= i < a ==> IsWhitespace(t[i])
  {
    if t != [] && IsWhitespace(t[0]) {
      var k := StartIsCut(t[1..]);
      a := k + 1;
      assert t[1..][k..] == t[a..];
      assert forall i :: 1 <= i < a ==> t[i] == t[1..][i - 1];
    } else {
      a := 0;
    }
  }

  lemma {:induction false} EndIsCut(t: Text) returns (b: nat)
    ensures b <= |t| && TrimEnd(t) == t[..b] && forall i :: b <= i < |t| ==> IsWhitespace(t[i])
  {
    if t != [] && IsWhitespace(t[|t| - 1]) {
      var front := t[..|t| - 1];
      b := EndIsCut(front);
      assert front[..b] == t[..b];
      assert forall i :: 0 <= i < |front| ==> t[i] == front[i];
    } else {
      b := |t|;
    }
  }

  lemma {:induction false} TrimIsTrimOf(t: Text)
    ensures IsTrimOf(t, Trim(t))
  {
    hide TrimStart, TrimEnd;
    var a := StartIsCut(t);
    var k := EndIsCut(TrimStart(t));
    assert t[a..][..k] == t[a..a + k];
    TrimIsTrimmed(t);
    assert forall i :: 0 <= i < |t[a..]| ==> t[a..][i] == t[a + i];
    assert IsVisiblePart(t, a, a + k);
  }

  lemma {:induction false} VisibleIsInside(t: Text, a: nat, b: nat, i: nat)
    requires IsBlankOutside(t, a, b) && i < |t| && !IsWhitespace(t[i])
    ensures a <= i < b
  {
  }

  lemma {:induction false} PartsAgree(t: Text, a: nat, b: nat, c: nat, d: nat)
    requires IsVisiblePart(t, a, b) && IsVisiblePart(t, c, d)
    ensures t[a..b] == t[c..d]
  {
    hide IsWhitespace, IsBlankOutside;
    if a < b {
      VisibleIsInside(t, c, d, a);
      VisibleIsInside(t, c, d, b - 1);
    }
    if c < d {
      VisibleIsInside(t, a, b, c);
      VisibleIsInside(t, a, b, d - 1);
    }
  }

  lemma {:induction false} TrimsAgree(t: Text, r: Text, s: Text)
    requires IsTrimOf(t, r) && IsTrimOf(t, s)
    ensures r == s
  {
    hide IsBlankOutside, IsWhitespace;
    var a: nat, b: nat :| IsVisiblePart(t, a, b) && r == t[a..b];
    var c: nat, d: nat :| IsVisiblePart(t, c, d) && s == t[c..d];
    PartsAgree(t, a, b, c, d);
  }

  /** `trim` returns exactly that part. */
  lemma {:induction false} TrimExactly(t: Text, r: Text)
    ensures Trim(t) == r <==> IsTrimOf(t, r)
  {
    TrimIsTrimOf(t);
    if IsTrimOf(t, r) {
      TrimsAgree(t, Trim(t), r);
    }
  }

  predicate IsName(id: Text) {
    id != [] && forall i :: 0 <= i < |id| ==>
      || 'a' as CodeUnit <= id[i] <= 'z' as CodeUnit || 'A' as CodeUnit <= id[i] <= 'Z' as CodeUnit
      || '0' as CodeUnit <= id[i] <= '9' as CodeUnit || id[i] in [46, 95, 45]
  }

  predicate HasNoBraces(t: Text) {
    '{' as CodeUnit !in t && '}' as CodeUnit !in t
  }

  /** The prefix as it reads. */
  lemma {:induction false} PrefixReads()
    ensures |PREFIX| == 18 && forall i :: 0 <= i < 18 ==> PREFIX[i] as int == "{{TED_PLACEHOLDER:"[i] as int
  {
  }

  /** The token as the pattern spells it. */
  function Spelled(id: Text, raw: Text): Text {
    PREFIX + id + [58] + raw + [125, 125]
  }

  lemma {:induction false} SpelledIsText(id: Text, raw: Text)
    ensures Spelled(id, raw) == TokenText(id, raw)
  {
    assert PREFIX + id + [58] + raw + [125, 125] == PREFIX + (id + ([COLON] + (raw + [CLOSE, CLOSE])));
  }

  lemma {:induction false} NamesExactly(id: Text)
    ensures IsId(id) <==> IsName(id)
  {
  }

  lemma {:induction false} BraceFreeExactly(t: Text)
    ensures IsBraceFree(t) <==> HasNoBraces(t)
  {
    if HasNoBraces(t) {
      forall i | 0 <= i < |t| ensures IsPlainUnit(t[i]) {
        assert t[i] in t;
      }
    }
  }

  /** A token is created exactly of a name and a brace-free label that is not blank, both trimmed. */
  lemma {:induction false} CreateExactly(id: Text, tokenLabel: Text, cleanId: Text, cleanLabel: Text)
    requires IsTrimOf(id, cleanId) && IsTrimOf(tokenLabel, cleanLabel)
    ensures CreateToken(id, tokenLabel)
         == if IsName(cleanId) && cleanLabel != [] && HasNoBraces(cleanLabel) then Created(Spelled(cleanId, cleanLabel)) else NotCreated
  {
    hide IsTrimOf, Trim, IsId, IsName, IsBraceFree, HasNoBraces, Spelled;
    TrimExactly(id, cleanId);
    TrimExactly(tokenLabel, cleanLabel);
    NamesExactly(cleanId);
    BraceFreeExactly(cleanLabel);
    SpelledIsText(cleanId, cleanLabel);
  }

  // ----- parsing -----

  /** The text starts with a spelled token. */
  predicate StartsSpelled(t: Text, id: Text, raw: Text) {
    IsName(id) && raw != [] && HasNoBraces(raw) && StartsWith(t, Spelled(id, raw))
  }

  lemma {:induction false} SpelledMatches(t: Text, id: Text, raw: Text)
    requires StartsSpelled(t, id, raw)
    ensures MatchHere(t) == Match(id, Trim(raw), |Spelled(id, raw)|)
  {
    hide StartsWith, IsId, IsName, MatchBody;
    SpelledIsText(id, raw);
    NamesExactly(id);
    BraceFreeExactly(raw);
    StartIs(t, Spelled(id, raw));
    var rest := t[|Spelled(id, raw)|..];
    assert t == TokenText(id, raw) + rest;
    var body := id + ([COLON] + (raw + ([CLOSE, CLOSE] + rest)));
    TokenRegroups(PREFIX, id, raw, rest);
    PrefixPasses(PREFIX, body);
    RawBodyMatches(id, raw, rest);
  }

  lemma {:induction false} StartIs(t: Text, prefix: Text)
    requires StartsWith(t, prefix)
    ensures |prefix| <= |t| && t[..|prefix|] == prefix
  {
  }

  lemma {:induction false} RawBodyMatches(id: Text, raw: Text, rest: Text)
    requires IsId(id) && raw != [] && IsBraceFree(raw)
    ensures MatchBody(id + ([COLON] + (raw + ([CLOSE, CLOSE] + rest)))) == Match(id, raw, |id| + 1 + |raw| + 2)
  {
    var tail := raw + ([CLOSE, CLOSE] + rest);
    var t := id + ([COLON] + tail);
    RunIs(IsIdUnit, id, [COLON] + tail);
    assert t[..|id|] == id && t[|id|] == COLON && t[|id| + 1..] == tail;
    RunIs(IsPlainUnit, raw, [CLOSE, CLOSE] + rest);
    assert tail[..|raw|] == raw && tail[|raw|..] == [CLOSE, CLOSE] + rest;
  }

  lemma {:induction false} BodyIsSpelled(t: Text)
    requires MatchBody(t).Match?
    ensures var m := MatchBody(t); m.length <= |t| && t[..m.length] == m.id + [COLON] + m.tokenLabel + [CLOSE, CLOSE]
    ensures IsId(MatchBody(t).id) && MatchBody(t).tokenLabel != [] && IsBraceFree(MatchBody(t).tokenLabel)
  {
    var m, n := MatchBody(t), RunLength(IsIdUnit, t);
    var tail := t[n + 1..];
    var k := RunLength(IsPlainUnit, tail);
    assert tail[k..][..2] == [CLOSE, CLOSE] && tail[k..k + 2] == tail[k..][..2];
    assert t[..m.length] == t[..n] + [t[n]] + tail[..k] + tail[k..k + 2];
  }

  lemma {:induction false} MatchIsSpelled(t: Text) returns (raw: Text)
    requires MatchHere(t).Match?
    ensures StartsSpelled(t, MatchHere(t).id, raw) && MatchHere(t).tokenLabel == Trim(raw)
    ensures MatchHere(t).length == |Spelled(MatchHere(t).id, raw)|
  {
    hide MatchBody, Trim, IsName;
    var body := t[|PREFIX|..];
    var m := MatchBody(body);
    raw := m.tokenLabel;
    BodyIsSpelled(body);
    NamesExactly(m.id);
    BraceFreeExactly(raw);
    assert t[..|PREFIX| + m.length] == PREFIX + body[..m.length];
    assert PREFIX + (m.id + [COLON] + raw + [CLOSE, CLOSE]) == Spelled(m.id, raw);
  }

  /** A spelled token at an offset of the content, with its name and its trimmed label. */
  ghost predicate Occurs(content: Text, at: nat, token: Token) {
    && at <= token.start <= token.end && token.end - at <= |content|
    && content[token.start - at..token.end - at] == token.text
    && exists raw :: IsSpelling(token, raw)
  }

  ghost predicate IsSpelling(token: Token, raw: Text) {
    && IsName(token.id) && raw != [] && HasNoBraces(raw)
    && token.text == Spelled(token.id, raw) && token.end - token.start == |token.text| && token.tokenLabel == Trim(raw)
  }

  predicate AreApart(tokens: seq<Token>) {
    forall i, j :: 0 <= i < j < |tokens| ==> tokens[i].end <= tokens[j].start
  }

  lemma {:induction false} OccurrenceMatches(content: Text, at: nat, token: Token)
    requires Occurs(content, at, token) && token.start == at
    ensures MatchHere(content) == Match(token.id, token.tokenLabel, |token.text|) && token == TokenAt(content, MatchHere(content), at)
  {
    hide Trim, IsName, HasNoBraces, Spelled;
    var raw :| IsSpelling(token, raw);
    assert content[..|token.text|] == token.text;
    SpelledMatches(content, token.id, raw);
  }

  lemma {:induction false} MatchOccurs(content: Text, at: nat)
    requires MatchHere(content).Match?
    ensures Occurs(content, at, TokenAt(content, MatchHere(content), at))
  {
    hide Trim, IsName, HasNoBraces, Spelled, MatchHere;
    var raw := MatchIsSpelled(content);
    var token := TokenAt(content, MatchHere(content), at);
    StartIs(content, Spelled(token.id, raw));
    assert IsSpelling(token, raw);
  }

  lemma {:induction false} LaterOccurs(content: Text, at: nat, k: nat, token: Token)
    requires k <= |content| && token.start >= at + k
    ensures Occurs(content[k..], at + k, token) <==> Occurs(content, at, token)
  {
    if token.start <= token.end && token.end - at <= |content| {
      assert content[k..][token.start - (at + k)..token.end - (at + k)] == content[token.start - at..token.end - at];
    }
  }

  lemma {:induction false} SpelledStart(id: Text, raw: Text)
    ensures |Spelled(id, raw)| > 2 && Spelled(id, raw)[0] == OPEN && Spelled(id, raw)[1] == OPEN
    ensures IsName(id) && HasNoBraces(raw) ==> forall i :: 2 <= i < |Spelled(id, raw)| ==> Spelled(id, raw)[i] != OPEN
  {
    var t := Spelled(id, raw);
    forall i | 2 <= i < |t| && IsName(id) && HasNoBraces(raw) ensures t[i] != OPEN {
      if i < |PREFIX| {
        assert t[i] == PREFIX[i];
      } else if i < |PREFIX| + |id| {
        assert t[i] == id[i - |PREFIX|];
      } else if |PREFIX| + |id| < i < |PREFIX| + |id| + 1 + |raw| {
        assert t[i] == raw[i - |PREFIX| - |id| - 1] && t[i] in raw;
      }
    }
  }

  lemma {:induction false} OccurrenceShape(content: Text, at: nat, token: Token)
    requires Occurs(content, at, token)
    ensures token.end > token.start + 2 && content[token.start - at] == OPEN && content[token.start - at + 1] == OPEN
    ensures forall i :: token.start - at + 2 <= i < token.end - at ==> content[i] != OPEN
  {
    hide Trim, IsName, HasNoBraces, Spelled;
    var raw :| IsSpelling(token, raw);
    SpelledStart(token.id, raw);
    assert token.text[0] == content[token.start - at] && token.text[1] == content[token.start - at + 1];
    forall i | token.start - at + 2 <= i < token.end - at ensures content[i] != OPEN {
      assert token.text[i - (token.start - at)] == content[i];
    }
  }

  /** No token starts inside another one. */
  lemma {:induction false} NoneInside(content: Text, at: nat, token: Token, other: Token)
    requires Occurs(content, at, token) && Occurs(content, at, other) && token.start < other.start
    ensures token.end <= other.start
  {
    hide Occurs;
    OccurrenceShape(content, at, token);
    OccurrenceShape(content, at, other);
  }

  /** The tokens of a scan occur one after the other, and there are no others. */
  ghost predicate AreAll(content: Text, at: nat, tokens: seq<Token>) {
    && (forall i :: 0 <= i < |tokens| ==> Occurs(content, at, tokens[i]))
    && AreApart(tokens)
    && (forall token :: Occurs(content, at, token) ==> token in tokens)
  }

  lemma {:induction false} AllAfterMatch(content: Text, at: nat, first: Token, rest: seq<Token>)
    requires Occurs(content, at, first) && first.start == at && AreAll(content[first.end - at..], first.end, rest)
    ensures AreAll(content, at, [first] + rest)
  {
    hide Occurs;
    var k, all := first.end - at, [first] + rest;
    OccurrenceShape(content, at, first);
    EndIsInside(content, at, first);
    forall i | 0 <= i < |rest| ensures rest[i].start >= first.end && Occurs(content, at, rest[i]) {
      StartIsInside(content[k..], first.end, rest[i]);
      LaterOccurs(content, at, k, rest[i]);
    }
    forall token | Occurs(content, at, token) ensures token in all {
      StartIsInside(content, at, token);
      if token.start == at {
        OccurrenceMatches(content, at, token);
        OccurrenceMatches(content, at, first);
      } else {
        NoneInside(content, at, first, token);
        LaterOccurs(content, at, k, token);
        assert token in rest;
      }
    }
    forall i, j | 0 <= i < j < |all| ensures all[i].end <= all[j].start {
      assert all[j] == rest[j - 1];
    }
  }

  lemma {:induction false} StartIsInside(content: Text, at: nat, token: Token)
    requires Occurs(content, at, token)
    ensures token.start >= at
  {
  }

  lemma {:induction false} EndIsInside(content: Text, at: nat, token: Token)
    requires Occurs(content, at, token)
    ensures at <= token.end && token.end - at <= |content|
  {
  }

  lemma {:induction false} AllAfterNoMatch(content: Text, at: nat, tokens: seq<Token>)
    requires content != [] && MatchHere(content).NoMatch? && AreAll(content[1..], at + 1, tokens)
    ensures AreAll(content, at, tokens)
  {
    hide Occurs, MatchHere;
    forall i | 0 <= i < |tokens| ensures Occurs(content, at, tokens[i]) {
      StartIsInside(content[1..], at + 1, tokens[i]);
      LaterOccurs(content, at, 1, tokens[i]);
    }
    forall token | Occurs(content, at, token) ensures token in tokens {
      StartIsInside(content, at, token);
      if token.start == at {
        OccurrenceMatches(content, at, token);
      }
      LaterOccurs(content, at, 1, token);
    }
  }

  /** Parsing any content returns exactly the tokens that occur in it, from the left. */
  lemma {:induction false} ScanExactly(content: Text, at: nat)
    ensures AreAll(content, at, Scan(content, at))
    decreases |content|
  {
    hide Occurs, MatchHere, AreAll;
    if content == [] {
      NothingOccurs(at);
    } else {
      var m := MatchHere(content);
      if m.Match? {
        MatchOccurs(content, at);
        ScanExactly(content[m.length..], at + m.length);
        AllAfterMatch(content, at, TokenAt(content, m, at), Scan(content[m.length..], at + m.length));
      } else {
        ScanExactly(content[1..], at + 1);
        AllAfterNoMatch(content, at, Scan(content[1..], at + 1));
      }
    }
  }

  lemma {:induction false} NothingOccurs(at: nat)
    ensures AreAll([], at, [])
  {
    forall token ensures !Occurs([], at, token) {
      if Occurs([], at, token) {
        OccurrenceShape([], at, token);
      }
    }
  }

  // ----- masking -----

  function TokenTexts(tokens: seq<Token>): (r: seq<Text>)
    ensures |r| == |tokens| && forall i :: 0 <= i < |r| ==> r[i] == tokens[i].text
  {
    if tokens == [] then [] else [tokens[0].text] + TokenTexts(tokens[1..])
  }

  /** The tokens lie one after the other in a text that starts at this offset. */
  predicate AreCuts(length: nat, at: nat, tokens: seq<Token>) {
    tokens == [] || (at <= tokens[0].start <= tokens[0].end <= at + length && AreCuts(at + length - tokens[0].end, tokens[0].end, tokens[1..]))
  }

  /** The text with the numbers of the tokens, from `k` on and between mask characters, in the place of the tokens. */
  function WithNumbers(t: Text, at: nat, tokens: seq<Token>, k: nat): Text
    requires AreCuts(|t|, at, tokens)
    decreases |tokens|
  {
    if tokens == [] then t
    else
      t[..tokens[0].start - at] + [0xE100] + NatText(k) + [0xE100] + WithNumbers(t[tokens[0].end - at..], tokens[0].end, tokens[1..], k + 1)
  }

  lemma {:induction false} ScanCuts(t: Text, at: nat)
    ensures AreCuts(|t|, at, Scan(t, at))
    decreases |t|
  {
    hide MatchHere;
    if t != [] {
      var m := MatchHere(t);
      if m.Match? {
        ScanCuts(t[m.length..], at + m.length);
      } else {
        ScanCuts(t[1..], at + 1);
        CutsEarlier(|t| - 1, at, Scan(t[1..], at + 1));
      }
    }
  }

  lemma {:induction false} CutsEarlier(length: nat, at: nat, tokens: seq<Token>)
    requires AreCuts(length, at + 1, tokens)
    ensures AreCuts(length + 1, at, tokens)
  {
  }

  lemma {:induction false} PushedFront(u: CodeUnit, a: Text, b: Text, c: Text, d: Text, e: Text)
    ensures ([u] + a) + b + c + d + e == [u] + (a + b + c + d + e)
  {
  }

  lemma {:induction false} CutLater(t: Text, from: nat, to: nat)
    requires 1 <= from <= to <= |t|
    ensures t[..from] == [t[0]] + t[1..][..from - 1] && t[to..] == t[1..][to - 1..]
  {
  }

  lemma {:induction false} NumbersLater(t: Text, at: nat, tokens: seq<Token>, k: nat)
    requires t != [] && AreCuts(|t| - 1, at + 1, tokens) && AreCuts(|t|, at, tokens)
    ensures WithNumbers(t, at, tokens, k) == [t[0]] + WithNumbers(t[1..], at + 1, tokens, k)
  {
    if tokens == [] {
      assert t == [t[0]] + t[1..];
    } else {
      FirstNumberLater(t, at, tokens, k);
    }
  }

  lemma {:induction false} FirstNumberLater(t: Text, at: nat, tokens: seq<Token>, k: nat)
    requires t != [] && tokens != [] && AreCuts(|t| - 1, at + 1, tokens) && AreCuts(|t|, at, tokens)
    ensures WithNumbers(t, at, tokens, k) == [t[0]] + WithNumbers(t[1..], at + 1, tokens, k)
  {
    hide NatText;
    var from, to := tokens[0].start - at, tokens[0].end - at;
    CutLater(t, from, to);
    PushedFront(t[0], t[1..][..from - 1], [0xE100], NatText(k), [0xE100], WithNumbers(t[to..], tokens[0].end, tokens[1..], k + 1));
  }

  ghost predicate MasksAsScanned(t: Text, at: nat, preserved: seq<Text>) {
    var tokens := Scan(t, at);
    AreCuts(|t|, at, tokens) && MaskFrom(t, preserved) == Masked(WithNumbers(t, at, tokens, |preserved|), preserved + TokenTexts(tokens))
  }

  lemma {:induction false} ScanMatched(t: Text, at: nat)
    requires t != [] && MatchHere(t).Match?
    ensures var m := MatchHere(t); Scan(t, at) == [TokenAt(t, m, at)] + Scan(t[m.length..], at + m.length)
  {
    hide MatchHere;
  }

  lemma {:induction false} MoreTexts(preserved: seq<Text>, first: Token, rest: seq<Token>)
    ensures preserved + [first.text] + TokenTexts(rest) == preserved + TokenTexts([first] + rest)
  {
    assert ([first] + rest)[1..] == rest;
  }

  lemma {:induction false} MatchIsMasked(t: Text, at: nat, preserved: seq<Text>, n: nat)
    requires t != [] && MatchHere(t).Match? && n == MatchHere(t).length
    requires MasksAsScanned(t[n..], at + n, preserved + [t[..n]])
    ensures MasksAsScanned(t, at, preserved)
  {
    hide MatchHere, WithNumbers, MaskFrom, Scan, NatText, AreCuts, TokenTexts;
    ScanCuts(t, at);
    ScanMatched(t, at);
    var first, rest := TokenAt(t, MatchHere(t), at), Scan(t[n..], at + n);
    FirstIsNumbered(t, at, first, rest, |preserved|);
    MaskMatched(t, preserved, n);
    MoreTexts(preserved, first, rest);
  }

  lemma {:induction false} UnitIsKept(t: Text, at: nat, preserved: seq<Text>)
    requires t != [] && MatchHere(t).NoMatch?
    requires MasksAsScanned(t[1..], at + 1, preserved)
    ensures MasksAsScanned(t, at, preserved)
  {
    hide MatchHere, WithNumbers;
    ScanCuts(t, at);
    assert Scan(t, at) == Scan(t[1..], at + 1);
    NumbersLater(t, at, Scan(t, at), |preserved|);
  }

  lemma {:induction false} MaskFromExactly(t: Text, at: nat, preserved: seq<Text>)
    ensures MasksAsScanned(t, at, preserved)
    decreases |t|
  {
    hide MatchHere, MasksAsScanned;
    if t == [] {
      NothingIsMasked(at, preserved);
    } else if MatchHere(t).Match? {
      var n := MatchHere(t).length;
      MaskFromExactly(t[n..], at + n, preserved + [t[..n]]);
      MatchIsMasked(t, at, preserved, n);
    } else {
      MaskFromExactly(t[1..], at + 1, preserved);
      UnitIsKept(t, at, preserved);
    }
  }

  lemma {:induction false} NothingIsMasked(at: nat, preserved: seq<Text>)
    ensures MasksAsScanned([], at, preserved)
  {
    assert preserved + [] == preserved;
  }

  lemma {:induction false} FirstIsNumbered(t: Text, at: nat, first: Token, rest: seq<Token>, k: nat)
    requires first.start == at && AreCuts(|t|, at, [first] + rest)
    ensures AreCuts(|t| - (first.end - at), first.end, rest)
    ensures WithNumbers(t, at, [first] + rest, k) == [0xE100] + (NatText(k) + ([0xE100] + WithNumbers(t[first.end - at..], first.end, rest, k + 1)))
  {
    hide NatText;
    assert ([first] + rest)[1..] == rest && t[..0] == [];
  }

  /** Masking keeps the tokens that occur, in order, and leaves their numbers in their place; nothing else changes. */
  lemma {:induction false} MaskExactly(content: Text)
    ensures AreCuts(|content|, 0, Scan(content, 0))
    ensures Mask(content) == Masked(WithNumbers(content, 0, Scan(content, 0), 0), TokenTexts(Scan(content, 0)))
  {
    MaskFromExactly(content, 0, []);
  }

  // ----- selecting -----

  /** The first placeholder with the identifier, if there is one. */
  lemma {:induction false} FindExactly(placeholders: seq<Placeholder>, id: Text)
    ensures Find(placeholders, id).Selected? ==>
      exists k :: 0 <= k < |placeholders| && placeholders[k] == Find(placeholders, id).placeholder
                  && placeholders[k].id == id && forall j :: 0 <= j < k ==> placeholders[j].id != id
    ensures Find(placeholders, id).NoSelection? ==> forall k :: 0 <= k < |placeholders| ==> placeholders[k].id != id
  {
    if placeholders != [] && placeholders[0].id != id {
      var rest := placeholders[1..];
      FindExactly(rest, id);
      assert forall k :: 1 <= k < |placeholders| ==> placeholders[k] == rest[k - 1];
      if Find(rest, id).Selected? {
        var k :| 0 <= k < |rest| && rest[k] == Find(rest, id).placeholder && rest[k].id == id && forall j :: 0 <= j < k ==> rest[j].id != id;
        assert placeholders[k + 1] == Find(placeholders, id).placeholder;
      }
    }
  }

  /** One more placeholder is a target if it is the selected one or shares its key, and remains otherwise; order is kept. */
  lemma {:induction false} SelectionGrows(placeholders: seq<Placeholder>, last: Placeholder, selected: Placeholder)
    ensures var joins := last.id == selected.id || (selected.shared != [] && last.shared == selected.shared);
      && Targets(placeholders + [last], selected) == Targets(placeholders, selected) + (if joins then [last] else [])
      && Remaining(placeholders + [last], selected) == Remaining(placeholders, selected) + (if joins then [] else [last])
  {
    if placeholders == [] {
      assert [] + [last] == [last];
    } else {
      assert (placeholders + [last])[1..] == placeholders[1..] + [last];
      SelectionGrows(placeholders[1..], last, selected);
    }
  }

  /** The resolved identifiers are those of the targets, each once, in the order of their first target. */
  lemma {:induction false} IdsExactly(targets: seq<Placeholder>)
    ensures NoRepeats(Ids(targets))
    ensures forall id :: id in Ids(targets) <==> exists i :: 0 <= i < |targets| && targets[i].id == id
    ensures forall k :: 0 <= k <= |targets| ==> Ids(targets[..k]) <= Ids(targets)
  {
    if targets != [] {
      var front, last := targets[..|targets| - 1], targets[|targets| - 1];
      IdsExactly(front);
      assert forall i :: 0 <= i < |front| ==> targets[i] == front[i];
      forall id ensures id in Ids(targets) <==> exists i :: 0 <= i < |targets| && targets[i].id == id {
        if i :| 0 <= i < |targets| && targets[i].id == id {
          assert i < |front| ==> front[i].id == id;
        }
        if i :| 0 <= i < |front| && front[i].id == id {
          assert targets[i].id == id;
        }
        if id == last.id {
          assert targets[|targets| - 1].id == id;
        }
      }
      forall k | 0 <= k <= |targets| ensures Ids(targets[..k]) <= Ids(targets) {
        if k <= |front| {
          assert targets[..k] == front[..k];
        } else {
          assert targets[..k] == targets;
        }
      }
    }
  }
}
