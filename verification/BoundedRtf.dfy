/**
 bounded-rtf.ts, lines 61-222: the lexical scan of an RTF document.

 A byte array is accepted exactly when it has a decomposition into tokens: they tile
 it from the first brace to the matching last one, groups balance within 64 levels,
 parameters are signed 32-bit numbers, binary payloads lie inside the input and are
 opaque, and only white space follows. The decomposition is unique and is what the
 scan returns. A token's depth is a function of the tokens before it, so it is not
 repeated in the token; the cancellation and deadline checks are not modelled.
 */
module BoundedRtf {
  import opened Utf8

  const MAX_INPUT: nat := 1024 * 1024
  const MAX_TOKENS: nat := 100_000
  const MAX_DEPTH: nat := 64
  const MAX_NAME: nat := 32
  const MAX_DIGITS: nat := 10
  const MAX_RUN: nat := 4096

  const OPEN: Byte := 123
  const CLOSE: Byte := 125
  const BACKSLASH: Byte := 92
  const BIN: Bytes := [98, 105, 110]
  const RTF: Bytes := [114, 116, 102]

  datatype Parameter = NoParameter | Parameter(value: int)

  datatype Kind =
    | GroupStart | GroupEnd | Plain | Newline
    | Symbol(symbol: Byte)
    | Hex(value: int)
    | Word(name: Bytes, parameter: Parameter, wordEnd: nat)
    | Binary(payloadStart: nat, length: nat, controlEnd: nat)

  /** Half-open offsets into the input, including any consumed delimiter. */
  datatype Token = Token(kind: Kind, start: nat, end: nat)

  // ----- byte classes -----

  predicate IsLetter(b: Byte) {
    65 <= b <= 90 || 97 <= b <= 122
  }

  predicate IsDigit(b: Byte) {
    48 <= b <= 57
  }

  predicate IsSpace(b: Byte) {
    b == 32 || b == 9 || b == 10 || b == 13
  }

  predicate IsHexDigit(b: Byte) {
    IsDigit(b) || 65 <= b <= 70 || 97 <= b <= 102
  }

  function HexValue(b: Byte): int {
    if IsDigit(b) then b as int - 48 else if b <= 70 then b as int - 55 else b as int - 87
  }

  /** Bytes that end a run of text. */
  predicate IsSpecial(b: Byte) {
    b == OPEN || b == CLOSE || b == BACKSLASH || b == 10 || b == 13
  }

  predicate IsPrintable(b: Byte) {
    b >= 32 || b == 9
  }

  predicate Is(bytes: Bytes, at: nat, b: Byte) {
    at < |bytes| && bytes[at] == b
  }

  // ----- runs -----

  /** `from..to` is the longest run of letters from `from`. */
  predicate LettersRun(bytes: Bytes, from: nat, to: nat) {
    && from <= to <= |bytes|
    && (forall i :: from <= i < to ==> IsLetter(bytes[i]))
    && (to < |bytes| ==> !IsLetter(bytes[to]))
  }

  predicate DigitsRun(bytes: Bytes, from: nat, to: nat) {
    && from <= to <= |bytes|
    && (forall i :: from <= i < to ==> IsDigit(bytes[i]))
    && (to < |bytes| ==> !IsDigit(bytes[to]))
  }

  lemma {:induction false} RunsAgree(bytes: Bytes, from: nat, to: nat, to': nat)
    ensures LettersRun(bytes, from, to) && LettersRun(bytes, from, to') ==> to == to'
    ensures DigitsRun(bytes, from, to) && DigitsRun(bytes, from, to') ==> to == to'
  {
    if to < to' && LettersRun(bytes, from, to') && to >= from {
      assert IsLetter(bytes[to]);
    }
    if to' < to && LettersRun(bytes, from, to) && to' >= from {
      assert IsLetter(bytes[to']);
    }
    if to < to' && DigitsRun(bytes, from, to') && to >= from {
      assert IsDigit(bytes[to]);
    }
    if to' < to && DigitsRun(bytes, from, to) && to' >= from {
      assert IsDigit(bytes[to']);
    }
  }

  function Value(digits: Bytes): (n: int)
  {
    if digits == [] then 0 else Value(digits[..|digits| - 1]) * 10 + (digits[|digits| - 1] as int - 48)
  }

  // ----- tokens -----

  function DigitsStart(bytes: Bytes, nameEnd: nat): nat {
    if Is(bytes, nameEnd, 45) then nameEnd + 1 else nameEnd
  }

  /** The optional signed number after a control word. */
  predicate ParameterIs(bytes: Bytes, nameEnd: nat, p: Parameter, end: nat) {
    var from := DigitsStart(bytes, nameEnd);
    && DigitsRun(bytes, from, end)
    && (from == end ==> from == nameEnd && p == NoParameter)
    && (from < end ==>
          && end - from <= MAX_DIGITS
          && Value(bytes[from..end]) <= (if from == nameEnd then 2147483647 else 2147483648)
          && p == Parameter(if from == nameEnd then Value(bytes[from..end]) else -Value(bytes[from..end])))
  }

  /** Past the one space that may delimit a control word. */
  function PastDelimiter(bytes: Bytes, at: nat): nat {
    if Is(bytes, at, 32) then at + 1 else at
  }

  predicate IsControl(bytes: Bytes, start: nat, name: Bytes, p: Parameter, nameEnd: nat, controlEnd: nat) {
    && start + 1 < nameEnd && LettersRun(bytes, start + 1, nameEnd) && nameEnd - start - 1 <= MAX_NAME
    && name == bytes[start + 1..nameEnd]
    && ParameterIs(bytes, nameEnd, p, controlEnd)
  }

  predicate IsWord(bytes: Bytes, t: Token) {
    && t.kind.Word? && t.kind.name != BIN
    && IsControl(bytes, t.start, t.kind.name, t.kind.parameter, t.start + 1 + |t.kind.name|, t.kind.wordEnd)
    && t.end == t.kind.wordEnd + (if t.kind.wordEnd < |bytes| && bytes[t.kind.wordEnd] == 32 then 1 else 0)
  }

  predicate IsBinary(bytes: Bytes, t: Token) {
    && t.kind.Binary?
    && IsControl(bytes, t.start, BIN, Parameter(t.kind.length), t.start + 4, t.kind.controlEnd)
    && t.kind.payloadStart == t.kind.controlEnd + (if t.kind.controlEnd < |bytes| && bytes[t.kind.controlEnd] == 32 then 1 else 0)
    && t.end == t.kind.payloadStart + t.kind.length <= |bytes|
  }

  predicate IsHex(bytes: Bytes, t: Token) {
    && t.kind.Hex? && t.end == t.start + 4 <= |bytes| && bytes[t.start + 1] == 39
    && IsHexDigit(bytes[t.start + 2]) && IsHexDigit(bytes[t.start + 3])
    && t.kind.value == HexValue(bytes[t.start + 2]) * 16 + HexValue(bytes[t.start + 3])
  }

  predicate IsSymbol(bytes: Bytes, t: Token) {
    && t.kind.Symbol? && t.start + 1 < |bytes|
    && var first := bytes[t.start + 1];
       && !IsLetter(first) && first != 39 && (first >= 32 || first == 10 || first == 13) && first <= 126
       && t.kind.symbol == (if first == 13 then 10 else first)
       && t.end == (if first == 13 && Is(bytes, t.start + 2, 10) then t.start + 3 else t.start + 2)
  }

  predicate IsNewline(bytes: Bytes, t: Token) {
    && t.kind.Newline? && t.start < |bytes| && (bytes[t.start] == 10 || bytes[t.start] == 13)
    && t.end == (if bytes[t.start] == 13 && Is(bytes, t.start + 1, 10) then t.start + 2 else t.start + 1)
  }

  predicate IsPlain(bytes: Bytes, t: Token) {
    && t.kind.Plain? && t.start < t.end <= |bytes| && t.end - t.start <= MAX_RUN
    && (forall i :: t.start <= i < t.end ==> IsPrintable(bytes[i]) && !IsSpecial(bytes[i]))
    && (t.end == |bytes| || t.end - t.start == MAX_RUN || IsSpecial(bytes[t.end]))
  }

  predicate IsToken(bytes: Bytes, t: Token) {
    && t.start < |bytes|
    && if bytes[t.start] == OPEN then t == Token(GroupStart, t.start, t.start + 1)
       else if bytes[t.start] == CLOSE then t == Token(GroupEnd, t.start, t.start + 1)
       else if bytes[t.start] == BACKSLASH then IsWord(bytes, t) || IsBinary(bytes, t) || IsHex(bytes, t) || IsSymbol(bytes, t)
       else IsNewline(bytes, t) || IsPlain(bytes, t)
  }

  ghost predicate NoTokenAt(bytes: Bytes, start: nat) {
    forall t :: IsToken(bytes, t) ==> t.start != start
  }

  // ----- what the numbers in tokens mean -----

  /** The figure for one digit, in either case. */
  predicate IsFigure(b: Byte, digit: int) {
    if digit < 10 then b as int == 48 + digit else b as int == 97 + (digit - 10) || b as int == 65 + (digit - 10)
  }

  /** The bytes write the number in decimal, possibly after leading zeros. */
  predicate IsDecimal(t: Bytes, n: nat) {
    t != [] && IsFigure(t[|t| - 1], n % 10) && if |t| == 1 then n < 10 else IsDecimal(t[..|t| - 1], n / 10)
  }

  lemma {:induction false} DecimalExactly(t: Bytes, n: nat)
    requires t != []
    ensures IsDecimal(t, n) <==> (forall i :: 0 <= i < |t| ==> IsDigit(t[i])) && Value(t) == n
    decreases |t|
  {
    var front, last := t[..|t| - 1], t[|t| - 1];
    assert forall i :: 0 <= i < |front| ==> t[i] == front[i];
    if |t| > 1 {
      DecimalExactly(front, n / 10);
      if IsDigit(last) {
        assert n % 10 == last as int - 48 && n / 10 == Value(front) <==> n == Value(front) * 10 + (last as int - 48);
      }
    } else {
      assert front == [] && Value(t) == last as int - 48;
    }
  }

  /** A hexadecimal escape stands for the number that its two figures write. */
  lemma {:induction false} HexExactly(bytes: Bytes, t: Token)
    ensures IsHex(bytes, t) <==>
      && t.kind.Hex? && t.end == t.start + 4 <= |bytes| && bytes[t.start + 1] == 39 && 0 <= t.kind.value < 256
      && IsFigure(bytes[t.start + 2], t.kind.value / 16) && IsFigure(bytes[t.start + 3], t.kind.value % 16)
  {
  }

  lemma {:induction false} DigitsAreValued(t: Bytes)
    requires forall i :: 0 <= i < |t| ==> IsDigit(t[i])
    ensures Value(t) >= 0
    decreases |t|
  {
    if t != [] {
      DigitsAreValued(t[..|t| - 1]);
    }
  }

  /** A parameter is the signed 32-bit number that its one to ten digits write after an optional minus. */
  lemma {:induction false} ParameterExactly(bytes: Bytes, nameEnd: nat, v: int, end: nat)
    ensures var from := if nameEnd < |bytes| && bytes[nameEnd] == 45 then nameEnd + 1 else nameEnd;
      ParameterIs(bytes, nameEnd, Parameter(v), end) <==>
        && DigitsRun(bytes, from, end) && 1 <= end - from <= 10
        && -0x8000_0000 <= v < 0x8000_0000 && (if from == nameEnd then v >= 0 else v <= 0)
        && IsDecimal(bytes[from..end], if v < 0 then -v else v)
  {
    var from := DigitsStart(bytes, nameEnd);
    if DigitsRun(bytes, from, end) && from < end {
      var digits := bytes[from..end];
      DigitsAreValued(digits);
      DecimalExactly(digits, if v < 0 then -v else v);
    }
  }

  // ----- where a token starts, the bytes decide what it is -----

  function NameOf(t: Token): Bytes {
    match t.kind case Word(name, _, _) => name case _ => BIN
  }

  function ParameterOf(t: Token): Parameter {
    match t.kind case Word(_, p, _) => p case Binary(_, length, _) => Parameter(length) case _ => NoParameter
  }

  function ControlEndOf(t: Token): nat {
    match t.kind case Word(_, _, end) => end case Binary(_, _, end) => end case _ => 0
  }

  /** A backslash before a letter starts a control word or a binary payload, nothing else. */
  lemma {:induction false} ControlTokens(bytes: Bytes, t: Token)
    requires IsToken(bytes, t) && bytes[t.start] == BACKSLASH && t.start + 1 < |bytes| && IsLetter(bytes[t.start + 1])
    ensures t.kind.Word? || t.kind.Binary?
    ensures IsControl(bytes, t.start, NameOf(t), ParameterOf(t), t.start + 1 + |NameOf(t)|, ControlEndOf(t))
    ensures t.kind.Binary? <==> NameOf(t) == BIN
  {
  }

  lemma {:induction false} ControlsAgree(bytes: Bytes, start: nat, name: Bytes, p: Parameter, nameEnd: nat, end: nat, name': Bytes, p': Parameter, nameEnd': nat, end': nat)
    requires IsControl(bytes, start, name, p, nameEnd, end) && IsControl(bytes, start, name', p', nameEnd', end')
    ensures name == name' && p == p' && nameEnd == nameEnd' && end == end'
  {
    RunsAgree(bytes, start + 1, nameEnd, nameEnd');
    RunsAgree(bytes, DigitsStart(bytes, nameEnd), end, end');
  }

  lemma {:induction false} BackslashKinds(bytes: Bytes, t: Token)
    requires IsToken(bytes, t) && bytes[t.start] == BACKSLASH
    ensures t.start + 1 < |bytes|
    ensures IsLetter(bytes[t.start + 1]) <==> t.kind.Word? || t.kind.Binary?
    ensures bytes[t.start + 1] == 39 <==> t.kind.Hex?
    ensures t.kind.Word? || t.kind.Binary? || t.kind.Hex? || t.kind.Symbol?
  {
    if IsWord(bytes, t) || IsBinary(bytes, t) {
      assert IsLetter(bytes[t.start + 1]);
    }
  }

  lemma {:induction false} PlainTokensAgree(bytes: Bytes, a: Token, b: Token)
    requires IsPlain(bytes, a) && IsPlain(bytes, b) && a.start == b.start
    ensures a.end <= b.end
  {
    if b.end < |bytes| && b.end - b.start < MAX_RUN {
      assert IsSpecial(bytes[b.end]);
    }
  }

  /** The one token that a control word with this name and parameter can be. */
  function ControlToken(bytes: Bytes, start: nat, name: Bytes, p: Parameter, controlEnd: nat): Token {
    var after := PastDelimiter(bytes, controlEnd);
    if name != BIN then Token(Word(name, p, controlEnd), start, after)
    else if p.NoParameter? || p.value < 0 then Token(Newline, start, start)
    else Token(Binary(after, p.value, controlEnd), start, after + p.value)
  }

  lemma {:induction false} ControlTokenIs(bytes: Bytes, t: Token)
    requires IsToken(bytes, t) && bytes[t.start] == BACKSLASH && t.start + 1 < |bytes| && IsLetter(bytes[t.start + 1])
    ensures t == ControlToken(bytes, t.start, NameOf(t), ParameterOf(t), ControlEndOf(t))
  {
    ControlTokens(bytes, t);
  }

  lemma {:induction false} ControlTokensAgree(bytes: Bytes, a: Token, b: Token)
    requires IsToken(bytes, a) && IsToken(bytes, b) && a.start == b.start && bytes[a.start] == BACKSLASH
    requires a.start + 1 < |bytes| && IsLetter(bytes[a.start + 1])
    ensures a == b
  {
    hide IsToken, IsControl;
    ControlTokens(bytes, a);
    ControlTokens(bytes, b);
    ControlsAgree(bytes, a.start, NameOf(a), ParameterOf(a), a.start + 1 + |NameOf(a)|, ControlEndOf(a),
      NameOf(b), ParameterOf(b), b.start + 1 + |NameOf(b)|, ControlEndOf(b));
    ControlTokenIs(bytes, a);
    ControlTokenIs(bytes, b);
  }

  lemma {:induction false} EscapesAgree(bytes: Bytes, a: Token, b: Token)
    requires IsToken(bytes, a) && IsToken(bytes, b) && a.start == b.start && bytes[a.start] == BACKSLASH
    ensures a == b
  {
    BackslashKinds(bytes, a);
    BackslashKinds(bytes, b);
    if IsLetter(bytes[a.start + 1]) {
      ControlTokensAgree(bytes, a, b);
    }
  }

  lemma {:induction false} TokensAgree(bytes: Bytes, a: Token, b: Token)
    requires IsToken(bytes, a) && IsToken(bytes, b) && a.start == b.start
    ensures a == b
  {
    if bytes[a.start] == BACKSLASH {
      EscapesAgree(bytes, a, b);
    } else if a.kind.Plain? && b.kind.Plain? {
      PlainTokensAgree(bytes, a, b);
      PlainTokensAgree(bytes, b, a);
    }
  }

  // ----- cutting tokens -----

  datatype Refusal = Invalid | ResourceLimit

  datatype Lexeme = NoToken | Lexed(token: Token)

  /** The cut found the token that starts here, and found none only if there is none. */
  ghost predicate IsCut(bytes: Bytes, start: nat, r: Lexeme) {
    match r
    case Lexed(t) => IsToken(bytes, t) && t.start == start
    case NoToken => NoTokenAt(bytes, start)
  }

  datatype Found = NotFound | Found(end: nat)

  /** The letters of a control word; not found when there are more than 32. */
  method CutLetters(bytes: Bytes, start: nat) returns (r: Found)
    requires start + 1 < |bytes| && bytes[start] == BACKSLASH && IsLetter(bytes[start + 1])
    ensures r.Found? ==> start + 1 < r.end && LettersRun(bytes, start + 1, r.end) && r.end - start - 1 <= MAX_NAME
    ensures r.NotFound? ==> NoTokenAt(bytes, start)
  {
    var end := start + 2;
    while end < |bytes| && IsLetter(bytes[end])
      invariant start + 2 <= end <= |bytes| && end - start - 1 <= MAX_NAME
      invariant forall i :: start + 1 <= i < end ==> IsLetter(bytes[i])
    {
      if end - start - 1 >= MAX_NAME {
        LongNamesAreRefused(bytes, start, end);
        return NotFound;
      }
      end := end + 1;
    }
    r := Found(end);
  }

  lemma {:induction false} LongNamesAreRefused(bytes: Bytes, start: nat, end: nat)
    requires start + 1 < end < |bytes| && bytes[start] == BACKSLASH && end - start - 1 >= MAX_NAME
    requires forall i :: start + 1 <= i <= end ==> IsLetter(bytes[i])
    ensures NoTokenAt(bytes, start)
  {
    forall t | IsToken(bytes, t) ensures t.start != start {
      if t.start == start {
        ControlTokens(bytes, t);
      }
    }
  }

  /** What a control token of this name must look like. */
  lemma {:induction false} ControlParameter(bytes: Bytes, start: nat, nameEnd: nat, t: Token)
    requires start + 1 < nameEnd && LettersRun(bytes, start + 1, nameEnd) && start < |bytes| && bytes[start] == BACKSLASH
    requires IsToken(bytes, t) && t.start == start
    ensures ParameterIs(bytes, nameEnd, ParameterOf(t), ControlEndOf(t)) && NameOf(t) == bytes[start + 1..nameEnd]
    ensures t.kind.Word? || t.kind.Binary?
    ensures t.kind.Binary? <==> NameOf(t) == BIN
  {
    ControlTokens(bytes, t);
    RunsAgree(bytes, start + 1, nameEnd, start + 1 + |NameOf(t)|);
  }

  lemma {:induction false} NoParameterNoToken(bytes: Bytes, start: nat, nameEnd: nat)
    requires start + 1 < nameEnd && LettersRun(bytes, start + 1, nameEnd) && bytes[start] == BACKSLASH
    requires forall p: Parameter, end: nat :: !ParameterIs(bytes, nameEnd, p, end)
    ensures NoTokenAt(bytes, start)
  {
    forall t | IsToken(bytes, t) ensures t.start != start {
      if t.start == start {
        ControlParameter(bytes, start, nameEnd, t);
      }
    }
  }

  datatype Signed = NoSigned | Signed(p: Parameter, end: nat)

  lemma {:induction false} ValueGrows(bytes: Bytes, from: nat, to: nat, end: nat)
    requires from <= to <= end <= |bytes| && forall i :: from <= i < end ==> IsDigit(bytes[i])
    ensures 0 <= Value(bytes[from..to]) <= Value(bytes[from..end])
    decreases end
  {
    if to == end {
      if from < to {
        ValueGrows(bytes, from, from, to - 1);
        ValueStep(bytes, from, to - 1);
      }
    } else {
      ValueGrows(bytes, from, to, end - 1);
      ValueStep(bytes, from, end - 1);
    }
  }

  lemma {:induction false} ValueStep(bytes: Bytes, from: nat, to: nat)
    requires from <= to < |bytes|
    ensures Value(bytes[from..to + 1]) == Value(bytes[from..to]) * 10 + (bytes[to] as int - 48)
  {
    assert bytes[from..to + 1][..to - from] == bytes[from..to];
  }

  /** The optional signed number; nothing is returned only if no number fits here. */
  method CutParameter(bytes: Bytes, nameEnd: nat) returns (r: Signed)
    requires nameEnd <= |bytes|
    ensures r.Signed? ==> ParameterIs(bytes, nameEnd, r.p, r.end)
    ensures r.NoSigned? ==> forall p: Parameter, end: nat :: !ParameterIs(bytes, nameEnd, p, end)
  {
    var from := DigitsStart(bytes, nameEnd);
    var limit := if from == nameEnd then 2147483647 else 2147483648;
    var cursor, magnitude := from, 0;
    while cursor < |bytes| && IsDigit(bytes[cursor])
      invariant from <= cursor <= |bytes| && cursor - from <= MAX_DIGITS
      invariant forall i :: from <= i < cursor ==> IsDigit(bytes[i])
      invariant magnitude == Value(bytes[from..cursor]) <= limit
    {
      ValueStep(bytes, from, cursor);
      if cursor - from + 1 > MAX_DIGITS {
        TooLong(bytes, nameEnd, cursor);
        return NoSigned;
      }
      magnitude := magnitude * 10 + (bytes[cursor] as int - 48);
      cursor := cursor + 1;
      if magnitude > limit {
        TooLarge(bytes, nameEnd, cursor, limit);
        return NoSigned;
      }
    }
    if cursor == from {
      if from != nameEnd {
        SignWithoutDigits(bytes, nameEnd);
        return NoSigned;
      }
      return Signed(NoParameter, cursor);
    }
    r := Signed(Parameter(if from == nameEnd then magnitude else -magnitude), cursor);
  }

  lemma {:induction false} TooLong(bytes: Bytes, nameEnd: nat, cursor: nat)
    requires nameEnd <= |bytes|
    requires var from := DigitsStart(bytes, nameEnd);
             from <= cursor < |bytes| && cursor - from + 1 > MAX_DIGITS && forall i :: from <= i <= cursor ==> IsDigit(bytes[i])
    ensures forall p: Parameter, end: nat :: !ParameterIs(bytes, nameEnd, p, end)
  {
  }

  lemma {:induction false} TooLarge(bytes: Bytes, nameEnd: nat, cursor: nat, limit: int)
    requires nameEnd <= |bytes|
    requires var from := DigitsStart(bytes, nameEnd);
             from < cursor <= |bytes| && (forall i :: from <= i < cursor ==> IsDigit(bytes[i]))
             && limit == (if from == nameEnd then 2147483647 else 2147483648) && Value(bytes[from..cursor]) > limit
    ensures forall p: Parameter, end: nat :: !ParameterIs(bytes, nameEnd, p, end)
  {
    var from := DigitsStart(bytes, nameEnd);
    forall p: Parameter, end: nat ensures !ParameterIs(bytes, nameEnd, p, end) {
      if DigitsRun(bytes, from, end) && end >= cursor {
        ValueGrows(bytes, from, cursor, end);
      }
    }
  }

  lemma {:induction false} SignWithoutDigits(bytes: Bytes, nameEnd: nat)
    requires nameEnd <= |bytes|
    requires var from := DigitsStart(bytes, nameEnd); from != nameEnd && (from < |bytes| ==> !IsDigit(bytes[from]))
    ensures forall p: Parameter, end: nat :: !ParameterIs(bytes, nameEnd, p, end)
  {
  }

  /** A control word, or the binary payload that `\bin` announces. */
  method CutControl(bytes: Bytes, start: nat) returns (r: Lexeme)
    requires start + 1 < |bytes| && bytes[start] == BACKSLASH && IsLetter(bytes[start + 1])
    ensures IsCut(bytes, start, r)
  {
    var letters := CutLetters(bytes, start);
    if letters.NotFound? {
      return NoToken;
    }
    var nameEnd := letters.end;
    var parameter := CutParameter(bytes, nameEnd);
    if parameter.NoSigned? {
      NoParameterNoToken(bytes, start, nameEnd);
      return NoToken;
    }
    var name, payloadStart := bytes[start + 1..nameEnd], PastDelimiter(bytes, parameter.end);
    if name == BIN {
      if parameter.p == NoParameter || parameter.p.value < 0 || parameter.p.value > |bytes| - payloadStart {
        BadPayload(bytes, start, nameEnd, parameter.p, parameter.end);
        return NoToken;
      }
      assert nameEnd == start + 4;
      return Lexed(Token(Binary(payloadStart, parameter.p.value, parameter.end), start, payloadStart + parameter.p.value));
    }
    r := Lexed(Token(Word(name, parameter.p, parameter.end), start, payloadStart));
  }

  lemma {:induction false} BadPayload(bytes: Bytes, start: nat, nameEnd: nat, p: Parameter, end: nat)
    requires start + 1 < nameEnd && LettersRun(bytes, start + 1, nameEnd) && bytes[start] == BACKSLASH && bytes[start + 1..nameEnd] == BIN
    requires ParameterIs(bytes, nameEnd, p, end)
    requires p == NoParameter || p.value < 0 || p.value > |bytes| - PastDelimiter(bytes, end)
    ensures NoTokenAt(bytes, start)
  {
    forall t | IsToken(bytes, t) ensures t.start != start {
      if t.start == start {
        ControlParameter(bytes, start, nameEnd, t);
        RunsAgree(bytes, DigitsStart(bytes, nameEnd), end, ControlEndOf(t));
      }
    }
  }

  method CutEscape(bytes: Bytes, start: nat) returns (r: Lexeme)
    requires start < |bytes| && bytes[start] == BACKSLASH
    ensures IsCut(bytes, start, r)
  {
    if start + 1 >= |bytes| {
      return NoToken;
    }
    var first := bytes[start + 1];
    if IsLetter(first) {
      r := CutControl(bytes, start);
    } else if first == 39 {
      if start + 4 > |bytes| || !IsHexDigit(bytes[start + 2]) || !IsHexDigit(bytes[start + 3]) {
        NoHexToken(bytes, start);
        return NoToken;
      }
      r := Lexed(Token(Hex(HexValue(bytes[start + 2]) * 16 + HexValue(bytes[start + 3])), start, start + 4));
    } else {
      if (first < 32 && first != 10 && first != 13) || first > 126 {
        NoSymbolToken(bytes, start);
        return NoToken;
      }
      var end := if first == 13 && Is(bytes, start + 2, 10) then start + 3 else start + 2;
      r := Lexed(Token(Symbol(if first == 13 then 10 else first), start, end));
    }
  }

  lemma {:induction false} NoHexToken(bytes: Bytes, start: nat)
    requires start + 1 < |bytes| && bytes[start] == BACKSLASH && bytes[start + 1] == 39
    requires start + 4 > |bytes| || !IsHexDigit(bytes[start + 2]) || !IsHexDigit(bytes[start + 3])
    ensures NoTokenAt(bytes, start)
  {
    forall t | IsToken(bytes, t) ensures t.start != start {
      if t.start == start {
        BackslashKinds(bytes, t);
      }
    }
  }

  lemma {:induction false} NoSymbolToken(bytes: Bytes, start: nat)
    requires start + 1 < |bytes| && bytes[start] == BACKSLASH
    requires var first := bytes[start + 1]; !IsLetter(first) && first != 39 && ((first < 32 && first != 10 && first != 13) || first > 126)
    ensures NoTokenAt(bytes, start)
  {
    forall t | IsToken(bytes, t) ensures t.start != start {
      if t.start == start {
        BackslashKinds(bytes, t);
      }
    }
  }

  /** A bounded run of text. */
  method CutPlain(bytes: Bytes, start: nat) returns (r: Lexeme)
    requires start < |bytes| && !IsSpecial(bytes[start])
    ensures IsCut(bytes, start, r)
  {
    if !IsPrintable(bytes[start]) {
      return NoToken;
    }
    var end := start + 1;
    while end < |bytes| && end - start < MAX_RUN && !IsSpecial(bytes[end])
      invariant start < end <= |bytes| && end - start <= MAX_RUN
      invariant forall i :: start <= i < end ==> IsPrintable(bytes[i]) && !IsSpecial(bytes[i])
    {
      if !IsPrintable(bytes[end]) {
        NoPlainToken(bytes, start, end);
        return NoToken;
      }
      end := end + 1;
    }
    r := Lexed(Token(Plain, start, end));
  }

  lemma {:induction false} NoPlainToken(bytes: Bytes, start: nat, bad: nat)
    requires start < bad < |bytes| && bad - start < MAX_RUN && !IsPrintable(bytes[bad]) && !IsSpecial(bytes[bad])
    requires forall i :: start <= i < bad ==> !IsSpecial(bytes[i])
    ensures NoTokenAt(bytes, start)
  {
    forall t | IsToken(bytes, t) ensures t.start != start {
      if IsPlain(bytes, t) && t.end < |bytes| && t.end - t.start < MAX_RUN {
        assert IsSpecial(bytes[t.end]);
      }
    }
  }

  method CutToken(bytes: Bytes, start: nat) returns (r: Lexeme)
    requires start < |bytes|
    ensures IsCut(bytes, start, r)
  {
    var byte := bytes[start];
    if byte == OPEN {
      r := Lexed(Token(GroupStart, start, start + 1));
    } else if byte == CLOSE {
      r := Lexed(Token(GroupEnd, start, start + 1));
    } else if byte == BACKSLASH {
      r := CutEscape(bytes, start);
    } else if byte == 10 || byte == 13 {
      r := Lexed(Token(Newline, start, if byte == 13 && Is(bytes, start + 1, 10) then start + 2 else start + 1));
    } else {
      r := CutPlain(bytes, start);
    }
  }

  // ----- documents -----

  function Change(kind: Kind): int {
    match kind case GroupStart => 1 case GroupEnd => -1 case _ => 0
  }

  /** Open groups after the given tokens. */
  function DepthOf(tokens: seq<Token>): int {
    if tokens == [] then 0 else DepthOf(tokens[..|tokens| - 1]) + Change(tokens[|tokens| - 1].kind)
  }

  function EndOf(tokens: seq<Token>): nat {
    if tokens == [] then 0 else tokens[|tokens| - 1].end
  }

  /** Tokens that tile the input from its start, inside the outermost group until their end. */
  predicate IsPart(bytes: Bytes, tokens: seq<Token>) {
    |tokens| <= MAX_TOKENS && Tiles(bytes, tokens) && StaysInside(tokens)
  }

  predicate Tiles(bytes: Bytes, tokens: seq<Token>) {
    forall i :: 0 <= i < |tokens| ==> IsToken(bytes, tokens[i]) && tokens[i].start == EndOf(tokens[..i])
  }

  predicate StaysInside(tokens: seq<Token>) {
    && (forall k :: 0 < k < |tokens| ==> 0 < DepthOf(tokens[..k]))
    && (forall k :: 0 <= k <= |tokens| ==> DepthOf(tokens[..k]) <= MAX_DEPTH)
  }

  predicate SpacesFrom(bytes: Bytes, from: nat, to: nat) {
    forall i :: from <= i < to <= |bytes| ==> IsSpace(bytes[i])
  }

  predicate IsHeader(t: Token) {
    t.kind.Word? && t.kind.name == RTF && t.kind.parameter == Parameter(1)
  }

  /** A complete document and its tokens. */
  predicate IsDocument(bytes: Bytes, tokens: seq<Token>) {
    && 7 <= |bytes| <= MAX_INPUT && bytes[0] == OPEN
    && IsPart(bytes, tokens)
    && |tokens| >= 2 && IsHeader(tokens[1])
    && DepthOf(tokens) == 0
    && SpacesFrom(bytes, EndOf(tokens), |bytes|)
  }

  ghost predicate NoDocument(bytes: Bytes) {
    forall w :: !IsDocument(bytes, w)
  }

  /** Every decomposition of the input starts with these tokens. */
  ghost predicate AllStartWith(bytes: Bytes, tokens: seq<Token>) {
    forall w :: IsDocument(bytes, w) ==> tokens <= w
  }

  /** The outermost group has been closed. */
  predicate IsClosed(tokens: seq<Token>) {
    tokens != [] && DepthOf(tokens) == 0
  }

  lemma {:induction false} MoreToCome(bytes: Bytes, tokens: seq<Token>, w: seq<Token>)
    requires IsDocument(bytes, w) && tokens <= w && !IsClosed(tokens)
    ensures |tokens| < |w| && IsToken(bytes, w[|tokens|]) && w[|tokens|].start == EndOf(tokens)
  {
    assert w[..|tokens|] == tokens && w[..|w|] == w;
  }

  lemma {:induction false} ClosedIsAll(bytes: Bytes, tokens: seq<Token>, w: seq<Token>)
    requires IsDocument(bytes, w) && tokens <= w && IsClosed(tokens)
    ensures w == tokens
  {
    assert w[..|tokens|] == tokens;
  }

  lemma {:induction false} NoNextToken(bytes: Bytes, tokens: seq<Token>)
    requires AllStartWith(bytes, tokens) && !IsClosed(tokens) && NoTokenAt(bytes, EndOf(tokens))
    ensures NoDocument(bytes)
  {
    forall w ensures !IsDocument(bytes, w) {
      if IsDocument(bytes, w) {
        MoreToCome(bytes, tokens, w);
      }
    }
  }

  lemma {:induction false} AllStartWithMore(bytes: Bytes, tokens: seq<Token>, t: Token)
    requires AllStartWith(bytes, tokens) && !IsClosed(tokens) && IsToken(bytes, t) && t.start == EndOf(tokens)
    ensures AllStartWith(bytes, tokens + [t])
  {
    hide IsToken, IsClosed;
    forall w | IsDocument(bytes, w) ensures tokens + [t] <= w {
      MoreToCome(bytes, tokens, w);
      TokensAgree(bytes, t, w[|tokens|]);
    }
  }

  lemma {:induction false} LimitsAreOurs(bytes: Bytes, tokens: seq<Token>)
    requires AllStartWith(bytes, tokens) && (|tokens| > MAX_TOKENS || DepthOf(tokens) > MAX_DEPTH)
    ensures NoDocument(bytes)
  {
    forall w ensures !IsDocument(bytes, w) {
      if tokens <= w {
        assert w[..|tokens|] == tokens;
      }
    }
  }

  lemma {:induction false} NotThisOne(bytes: Bytes, tokens: seq<Token>)
    requires AllStartWith(bytes, tokens) && IsClosed(tokens) && !IsDocument(bytes, tokens)
    ensures NoDocument(bytes)
  {
    forall w ensures !IsDocument(bytes, w) {
      if IsDocument(bytes, w) {
        ClosedIsAll(bytes, tokens, w);
      }
    }
  }

  lemma {:induction false} PartGrows(bytes: Bytes, tokens: seq<Token>, t: Token)
    requires IsPart(bytes, tokens) && !IsClosed(tokens) && 0 <= DepthOf(tokens)
    requires IsToken(bytes, t) && t.start == EndOf(tokens) && |tokens| < MAX_TOKENS && DepthOf(tokens + [t]) <= MAX_DEPTH
    ensures IsPart(bytes, tokens + [t])
  {
    TilingGrows(bytes, tokens, t);
    InsideGrows(tokens, t);
  }

  lemma {:induction false} InsideGrows(tokens: seq<Token>, t: Token)
    requires StaysInside(tokens) && !IsClosed(tokens) && 0 <= DepthOf(tokens) && DepthOf(tokens + [t]) <= MAX_DEPTH
    ensures StaysInside(tokens + [t])
  {
    var grown := tokens + [t];
    assert grown[..|tokens|] == tokens && grown[..|grown|] == grown && tokens[..|tokens|] == tokens;
    assert forall k :: 0 <= k <= |tokens| ==> grown[..k] == tokens[..k];
  }

  lemma {:induction false} TilingGrows(bytes: Bytes, tokens: seq<Token>, t: Token)
    requires Tiles(bytes, tokens) && IsToken(bytes, t) && t.start == EndOf(tokens)
    ensures Tiles(bytes, tokens + [t])
  {
    var grown := tokens + [t];
    assert grown[..|tokens|] == tokens;
    assert forall i :: 0 <= i <= |tokens| ==> grown[..i] == tokens[..i];
  }

  lemma {:induction false} DepthStep(tokens: seq<Token>, t: Token)
    ensures DepthOf(tokens + [t]) == DepthOf(tokens) + Change(t.kind) && EndOf(tokens + [t]) == t.end
  {
    assert (tokens + [t])[..|tokens|] == tokens;
  }

  datatype Scan = NotAccepted(why: Refusal) | Accepted(tokens: seq<Token>)

  lemma {:induction false} TokensAdvance(bytes: Bytes, t: Token)
    requires IsToken(bytes, t)
    ensures t.start < t.end <= |bytes|
  {
    if bytes[t.start] == BACKSLASH {
      BackslashKinds(bytes, t);
      if IsLetter(bytes[t.start + 1]) {
        ControlTokens(bytes, t);
      }
    }
  }

  /** One token of an open group: cut, counted and appended, or the reason why there is no document here. */
  method Step(bytes: Bytes, tokens: seq<Token>, depth: nat) returns (r: Scan)
    requires bytes != [] && bytes[0] == OPEN
    requires IsPart(bytes, tokens) && AllStartWith(bytes, tokens) && !IsClosed(tokens)
    requires depth == DepthOf(tokens) && EndOf(tokens) < |bytes|
    ensures r.NotAccepted? ==> NoDocument(bytes)
    ensures r.Accepted? ==> |r.tokens| == |tokens| + 1 && IsPart(bytes, r.tokens) && AllStartWith(bytes, r.tokens)
    ensures r.Accepted? ==> EndOf(tokens) < EndOf(r.tokens) <= |bytes| && DepthOf(r.tokens) >= 0
    ensures r.Accepted? ==> DepthOf(r.tokens) == depth + Change(r.tokens[|tokens|].kind)
  {
    var cut := CutToken(bytes, EndOf(tokens));
    if cut.NoToken? {
      NoNextToken(bytes, tokens);
      return NotAccepted(Invalid);
    }
    var t := cut.token;
    var more := tokens + [t];
    AllStartWithMore(bytes, tokens, t);
    DepthStep(tokens, t);
    TokensAdvance(bytes, t);
    if depth + Change(t.kind) > MAX_DEPTH || |tokens| >= MAX_TOKENS {
      LimitsAreOurs(bytes, more);
      return NotAccepted(ResourceLimit);
    }
    OpensFirst(bytes, tokens, t);
    PartGrows(bytes, tokens, t);
    r := Accepted(more);
  }

  lemma {:induction false} EmptyPart(bytes: Bytes)
    ensures IsPart(bytes, []) && AllStartWith(bytes, []) && DepthOf([]) == 0
  {
  }

  /** The checks after the last byte. */
  method Conclude(bytes: Bytes, tokens: seq<Token>, closed: bool) returns (r: Scan)
    requires 7 <= |bytes| <= MAX_INPUT && bytes[0] == OPEN
    requires IsPart(bytes, tokens) && AllStartWith(bytes, tokens) && closed == IsClosed(tokens)
    requires if closed then SpacesFrom(bytes, EndOf(tokens), |bytes|) else EndOf(tokens) == |bytes|
    ensures r.Accepted? ==> IsDocument(bytes, r.tokens)
    ensures r.NotAccepted? ==> NoDocument(bytes)
  {
    if !closed {
      NoNextToken(bytes, tokens);
      return NotAccepted(Invalid);
    }
    if |tokens| < 2 || !IsHeader(tokens[1]) {
      NotThisOne(bytes, tokens);
      return NotAccepted(Invalid);
    }
    r := Accepted(tokens);
  }

  /** The state of the scan: inside the outermost group, or in the white space after it. */
  datatype Position = Position(tokens: seq<Token>, cursor: nat, depth: int, closed: bool)

  ghost predicate InProgress(bytes: Bytes, s: Position) {
    && s.cursor <= |bytes|
    && IsPart(bytes, s.tokens) && AllStartWith(bytes, s.tokens)
    && s.depth == DepthOf(s.tokens) && s.depth >= 0 && s.closed == IsClosed(s.tokens)
    && if s.closed then EndOf(s.tokens) <= s.cursor && SpacesFrom(bytes, EndOf(s.tokens), s.cursor) else s.cursor == EndOf(s.tokens)
  }

  method SkipSpace(bytes: Bytes, s: Position) returns (ok: bool, next: Position)
    requires InProgress(bytes, s) && s.closed && s.cursor < |bytes|
    ensures if ok then InProgress(bytes, next) && next.cursor > s.cursor else NoDocument(bytes)
  {
    next := s.(cursor := s.cursor + 1);
    ok := IsSpace(bytes[s.cursor]);
    if !ok {
      NotThisOne(bytes, s.tokens);
    }
  }

  method TakeToken(bytes: Bytes, s: Position) returns (ok: bool, why: Refusal, next: Position)
    requires bytes != [] && bytes[0] == OPEN
    requires InProgress(bytes, s) && !s.closed && s.cursor < |bytes|
    ensures if ok then InProgress(bytes, next) && next.cursor > s.cursor else NoDocument(bytes)
  {
    var step := Step(bytes, s.tokens, s.depth);
    if step.NotAccepted? {
      return false, step.why, s;
    }
    var depth := s.depth + Change(step.tokens[|s.tokens|].kind);
    return true, Invalid, Position(step.tokens, EndOf(step.tokens), depth, depth == 0);
  }

  /** scanBoundedRtf: accepts exactly the inputs that have a decomposition, and returns it. */
  method ScanBoundedRtf(bytes: Bytes) returns (r: Scan)
    ensures r.Accepted? ==> IsDocument(bytes, r.tokens)
    ensures r.NotAccepted? ==> NoDocument(bytes)
  {
    if |bytes| > MAX_INPUT {
      return NotAccepted(ResourceLimit);
    }
    if |bytes| < 7 || bytes[0] != OPEN {
      return NotAccepted(Invalid);
    }
    var s := Position([], 0, 0, false);
    EmptyPart(bytes);
    while s.cursor < |bytes|
      invariant InProgress(bytes, s)
      decreases |bytes| - s.cursor
    {
      var ok, why := true, Invalid;
      if s.closed {
        ok, s := SkipSpace(bytes, s);
      } else {
        ok, why, s := TakeToken(bytes, s);
      }
      if !ok {
        return NotAccepted(why);
      }
    }
    r := Conclude(bytes, s.tokens, s.closed);
  }

  /** The first token opens the outermost group, so no group is closed that is not open. */
  lemma {:induction false} OpensFirst(bytes: Bytes, tokens: seq<Token>, t: Token)
    requires bytes != [] && bytes[0] == OPEN && IsPart(bytes, tokens) && !IsClosed(tokens) && DepthOf(tokens) >= 0
    requires IsToken(bytes, t) && t.start == EndOf(tokens)
    ensures DepthOf(tokens) + Change(t.kind) >= 0
  {
    if tokens == [] {
      assert t == Token(GroupStart, 0, 1);
    }
  }

  /** The decomposition of an input is unique. */
  lemma {:induction false} DocumentIsUnique(bytes: Bytes, a: seq<Token>, b: seq<Token>)
    requires IsDocument(bytes, a) && IsDocument(bytes, b)
    ensures a == b
  {
    PrefixesAgree(bytes, a, b, |a|);
    assert a[..|a|] == a;
    ClosedIsAll(bytes, a, b);
  }

  lemma {:induction false} PrefixesAgree(bytes: Bytes, a: seq<Token>, b: seq<Token>, k: nat)
    requires IsDocument(bytes, a) && IsDocument(bytes, b) && k <= |a|
    ensures a[..k] <= b
    decreases k
  {
    if k > 0 {
      PrefixesAgree(bytes, a, b, k - 1);
      OneMoreAgrees(bytes, a, b, k - 1);
    }
  }

  lemma {:induction false} OneMoreAgrees(bytes: Bytes, a: seq<Token>, b: seq<Token>, k: nat)
    requires IsDocument(bytes, a) && IsDocument(bytes, b) && k < |a| && a[..k] <= b
    ensures a[..k + 1] <= b
  {
    NextAgrees(bytes, a, b, k);
    LongerPrefix(a, b, k);
  }

  lemma {:induction false} NextAgrees(bytes: Bytes, a: seq<Token>, b: seq<Token>, k: nat)
    requires IsDocument(bytes, a) && IsDocument(bytes, b) && k < |a| && a[..k] <= b
    ensures k < |b| && a[k] == b[k]
  {
    StillOpen(bytes, a, k);
    MoreToCome(bytes, a[..k], b);
    TokensAgree(bytes, a[k], b[k]);
  }

  lemma {:induction false} LongerPrefix<T>(a: seq<T>, b: seq<T>, k: nat)
    requires k < |a| && k < |b| && a[..k] <= b && a[k] == b[k]
    ensures a[..k + 1] <= b
  {
    assert a[..k] == b[..k];
    assert a[..k + 1] == b[..k] + [b[k]];
  }

  lemma {:induction false} StillOpen(bytes: Bytes, a: seq<Token>, k: nat)
    requires IsDocument(bytes, a) && k < |a|
    ensures !IsClosed(a[..k]) && IsToken(bytes, a[k]) && a[k].start == EndOf(a[..k])
  {
  }

  /** Parameters are signed 32-bit numbers, and a payload is never longer than what is left of the input. */
  lemma {:induction false} ParametersAreInRange(bytes: Bytes, t: Token)
    requires IsToken(bytes, t) && (t.kind.Word? || t.kind.Binary?)
    ensures ParameterOf(t).Parameter? ==> -2147483648 <= ParameterOf(t).value <= 2147483647
    ensures t.kind.Binary? ==> t.start < t.kind.payloadStart && t.kind.payloadStart + t.kind.length == t.end <= |bytes|
  {
    BackslashKinds(bytes, t);
    ControlTokens(bytes, t);
    var nameEnd := t.start + 1 + |NameOf(t)|;
    var from, end := DigitsStart(bytes, nameEnd), ControlEndOf(t);
    if from < end {
      ValueGrows(bytes, from, end, end);
    }
  }
}
