/**
 bounded-xml.ts, lines 210-324: the scan of a whole document.

 The scan accepts exactly the inputs that are documents: cut into tokens that tile
 the input without gaps, whose events form one tree with matching names and bounded
 depth, with only white space and no CDATA outside it. Decoded text never exceeds
 the source it came from, so the limit on decoded characters is implied by the limit
 on the input. The regular expression for the XML declaration is an arbitrary
 predicate. The ghost parameter or field `guess` stands for an arbitrary token or
 document at that place: what is refused is no document because no guess is one.
 */
module BoundedXml {
  import opened Texts
  import opened XmlText
  import opened XmlTag

  const MAX_INPUT: nat := 8 * 1024 * 1024
  const MAX_TOKENS: nat := 250_000
  const MAX_DEPTH: nat := 128

  const BYTE_ORDER_MARK: CodeUnit := 0xFEFF
  const COMMENT_OPEN: Text := [60, 33, 45, 45]
  const COMMENT_CLOSE: Text := [45, 45, 62]
  const TWO_DASHES: Text := [45, 45]
  const INSTRUCTION_OPEN: Text := [60, 63]
  const INSTRUCTION_CLOSE: Text := [63, 62]
  const CDATA_OPEN: Text := [60, 33, 91, 67, 68, 65, 84, 65, 91]
  const CDATA_CLOSE: Text := [93, 93, 62]
  const DECLARATION_OPEN: Text := [60, 33]

  datatype Event = Start(name: Text, attributes: seq<Attribute>, selfClosing: bool) | End(name: Text) | Characters(text: Text)

  datatype Syntax = TagSyntax | TextSyntax | CdataSyntax | Synthetic

  /** An event with its half-open range of source offsets. */
  datatype Ranged = Ranged(event: Event, start: nat, end: nat, syntax: Syntax)

  datatype Kind = Mark | Run | Comment | Instruction(target: Text) | Cdata | Element(tag: Tag) | EndElement(name: Text)

  /** One piece of the source with the events it gave rise to. */
  datatype Token = Token(kind: Kind, start: nat, end: nat, events: seq<Ranged>)

  // ----- searching -----

  predicate FirstAt(t: Text, needle: Text, from: nat, at: nat) {
    from <= at && OccursAt(t, needle, at) && forall i :: from <= i < at ==> !OccursAt(t, needle, i)
  }

  predicate NoneFrom(t: Text, needle: Text, from: nat) {
    forall i :: from <= i <= |t| ==> !OccursAt(t, needle, i)
  }

  /** `indexOf`; the length of the text plus one stands for -1. */
  method Find(t: Text, needle: Text, from: nat) returns (at: nat)
    requires from <= |t|
    ensures if at <= |t| then FirstAt(t, needle, from, at) else NoneFrom(t, needle, from)
  {
    at := from;
    while at <= |t| && !OccursAt(t, needle, at)
      invariant from <= at <= |t| + 1
      invariant forall i :: from <= i < at ==> !OccursAt(t, needle, i)
    {
      at := at + 1;
    }
  }

  // ----- tokens -----

  predicate StartsWithMark(xml: Text) {
    xml != [] && xml[0] == BYTE_ORDER_MARK
  }

  function ContentStart(xml: Text): nat {
    if StartsWithMark(xml) then 1 else 0
  }

  function TextEvents(text: Text, start: nat, end: nat, syntax: Syntax): seq<Ranged> {
    if text == [] then [] else [Ranged(Characters(text), start, end, syntax)]
  }

  function ElementEvents(tag: Tag, start: nat, end: nat): seq<Ranged>
    requires IsTag(tag)
  {
    [Ranged(Start(tag.name, AttributesOf(tag.written), tag.selfClosing), start, end, TagSyntax)]
    + if tag.selfClosing then [Ranged(End(tag.name), end, end, Synthetic)] else []
  }

  function TextOf(raw: Text): Decoded {
    Decode(Normalise(raw))
  }

  predicate IsMark(xml: Text, t: Token) {
    StartsWithMark(xml) && t == Token(Mark, 0, 1, [])
  }

  predicate IsRun(xml: Text, t: Token) {
    && t.kind == Run && ContentStart(xml) <= t.start < t.end <= |xml|
    && LESS !in xml[t.start..t.end] && (t.end == |xml| || xml[t.end] == LESS)
    && NoneFrom(xml[t.start..t.end], CDATA_CLOSE, 0)
    && TextOf(xml[t.start..t.end]).Decoded?
    && t.events == TextEvents(TextOf(xml[t.start..t.end]).text, t.start, t.end, TextSyntax)
  }

  predicate IsCommentBody(body: Text) {
    NoneFrom(body, TWO_DASHES, 0) && (body == [] || body[|body| - 1] != 45)
  }

  predicate IsComment(xml: Text, t: Token) {
    && t.kind == Comment && t.start + 7 <= t.end <= |xml| && t.end - 3 - t.start <= MAX_TAG
    && OccursAt(xml, COMMENT_OPEN, t.start) && FirstAt(xml, COMMENT_CLOSE, t.start + 4, t.end - 3)
    && IsCommentBody(xml[t.start + 4..t.end - 3])
    && t.events == []
  }

  predicate IsTarget(body: Text, target: Text) {
    && IsName(target) && |target| <= |body| && body[..|target|] == target
    && (|body| > |target| ==> IsSpace(body[|target|]))
  }

  predicate IsXmlTarget(target: Text) {
    && |target| == 3
    && (target[0] == 120 || target[0] == 88) && (target[1] == 109 || target[1] == 77) && (target[2] == 108 || target[2] == 76)
  }

  predicate IsInstruction(xml: Text, declaration: Text -> bool, t: Token) {
    && t.kind.Instruction? && t.start + 4 <= t.end <= |xml| && t.end - 2 - t.start <= MAX_TAG
    && OccursAt(xml, INSTRUCTION_OPEN, t.start) && FirstAt(xml, INSTRUCTION_CLOSE, t.start + 2, t.end - 2)
    && IsTarget(xml[t.start + 2..t.end - 2], t.kind.target)
    && (IsXmlTarget(t.kind.target) ==> t.start == ContentStart(xml) && declaration(xml[t.start + 2..t.end - 2]))
    && t.events == []
  }

  predicate IsCdata(xml: Text, t: Token) {
    && t.kind == Cdata && t.start + 12 <= t.end <= |xml|
    && OccursAt(xml, CDATA_OPEN, t.start) && FirstAt(xml, CDATA_CLOSE, t.start + 9, t.end - 3)
    && t.events == TextEvents(Normalise(xml[t.start + 9..t.end - 3]), t.start + 9, t.end - 3, CdataSyntax)
  }

  predicate IsTagRange(xml: Text, t: Token) {
    && t.start + 2 <= t.end <= |xml| && t.end - t.start - 2 <= MAX_TAG
    && xml[t.start] == LESS && TagEndsAt(xml, t.start + 1, t.end - 1)
  }

  predicate IsElement(xml: Text, t: Token) {
    && t.kind.Element? && IsTagRange(xml, t)
    && IsTag(t.kind.tag) && WriteTag(t.kind.tag) == xml[t.start + 1..t.end - 1]
    && t.events == ElementEvents(t.kind.tag, t.start, t.end)
  }

  predicate IsEndElement(xml: Text, t: Token) {
    && t.kind.EndElement? && IsTagRange(xml, t)
    && IsEndTag(xml[t.start + 1..t.end - 1], t.kind.name)
    && t.events == [Ranged(End(t.kind.name), t.start, t.end, TagSyntax)]
  }

  predicate IsToken(xml: Text, declaration: Text -> bool, t: Token) {
    match t.kind
    case Mark => IsMark(xml, t)
    case Run => IsRun(xml, t)
    case Comment => IsComment(xml, t)
    case Instruction(_) => IsInstruction(xml, declaration, t)
    case Cdata => IsCdata(xml, t)
    case Element(_) => IsElement(xml, t)
    case EndElement(_) => IsEndElement(xml, t)
  }

  /** An event stands where its token does; the end of a self-closing element stands behind it, CDATA without its delimiters. */
  lemma {:induction false} EventsStandInTokens(xml: Text, declaration: Text -> bool, t: Token, i: nat)
    requires IsToken(xml, declaration, t) && i < |t.events|
    ensures var r := t.events[i];
      match r.syntax
      case TextSyntax => r.start == t.start && r.end == t.end && r.event.Characters?
      case CdataSyntax => r.start == t.start + 9 && r.end == t.end - 3 && r.event.Characters?
      case TagSyntax => r.start == t.start && r.end == t.end && i == 0
      case Synthetic => r.start == r.end == t.end && i == 1 && t.kind.Element? && t.kind.tag.selfClosing && r.event == End(t.kind.tag.name)
  {
    hide IsTag, TextOf, Normalise, NoneFrom, FirstAt, IsTagRange, IsEndTag, WriteTag, AttributesOf;
  }

  /** The tokens cover the source up to `end`, each starting where the one before it ended. */
  predicate Tiles(tokens: seq<Token>, end: nat) {
    && (tokens == [] ==> end == 0)
    && (tokens != [] ==> tokens[0].start == 0 && tokens[|tokens| - 1].end == end)
    && (forall i :: 0 <= i < |tokens| ==> tokens[i].start < tokens[i].end)
    && (forall i :: 0 < i < |tokens| ==> tokens[i].start == tokens[i - 1].end)
  }

  predicate AreTokens(xml: Text, declaration: Text -> bool, tokens: seq<Token>) {
    forall i :: 0 <= i < |tokens| ==> IsToken(xml, declaration, tokens[i])
  }

  function EventsOf(tokens: seq<Token>): seq<Ranged> {
    if tokens == [] then [] else EventsOf(tokens[..|tokens| - 1]) + tokens[|tokens| - 1].events
  }

  // ----- one tree -----

  datatype Nesting = Broken | Nested(stack: seq<Text>, roots: nat)

  /** A well-nested document so far: open elements, and how many roots there have been. */
  function Enter(n: Nesting, e: Event): Nesting {
    if n.Broken? then Broken
    else match e
      case Start(name, _, _) =>
        var roots := if n.stack == [] then n.roots + 1 else n.roots;
        if |n.stack| + 1 > MAX_DEPTH || roots > 1 then Broken else Nested(n.stack + [name], roots)
      case End(name) =>
        if n.stack == [] || n.stack[|n.stack| - 1] != name then Broken else Nested(n.stack[..|n.stack| - 1], n.roots)
      case Characters(_) => n
  }

  function NestFrom(n: Nesting, events: seq<Ranged>): Nesting {
    if events == [] then n else Enter(NestFrom(n, events[..|events| - 1]), events[|events| - 1].event)
  }

  /** Outside the root there is only white space as it was written, and no CDATA. */
  predicate StandsWhere(xml: Text, inside: bool, t: Token) {
    match t.kind
    case Run => inside || (t.start <= t.end <= |xml| && AreSpaces(xml[t.start..t.end]))
    case Cdata => inside
    case _ => true
  }

  function Grow(xml: Text, n: Nesting, t: Token): Nesting {
    if n.Broken? || !StandsWhere(xml, n.stack != [], t) then Broken else NestFrom(n, t.events)
  }

  function Nest(xml: Text, tokens: seq<Token>): Nesting {
    if tokens == [] then Nested([], 0) else Grow(xml, Nest(xml, tokens[..|tokens| - 1]), tokens[|tokens| - 1])
  }

  /** What a token takes from the budget: its events, and one for markup without events. */
  function Cost(t: Token): nat {
    match t.kind
    case Mark => 0
    case Run => |t.events|
    case Element(_) => |t.events|
    case _ => 1
  }

  function TotalCost(tokens: seq<Token>): nat {
    if tokens == [] then 0 else TotalCost(tokens[..|tokens| - 1]) + Cost(tokens[|tokens| - 1])
  }

  // ----- decoded text -----

  function DecodedLength(events: seq<Ranged>): nat {
    if events == [] then 0
    else DecodedLength(events[..|events| - 1]) + (if events[|events| - 1].event.Characters? then |events[|events| - 1].event.text| else 0)
  }

  lemma {:induction false} NestConcat(n: Nesting, a: seq<Ranged>, b: seq<Ranged>)
    ensures NestFrom(n, a + b) == NestFrom(NestFrom(n, a), b)
    decreases |b|
  {
    if b == [] {
      assert a + b == a;
    } else {
      assert (a + b)[..|a + b| - 1] == a + b[..|b| - 1];
      NestConcat(n, a, b[..|b| - 1]);
    }
  }

  lemma {:induction false} LengthConcat(a: seq<Ranged>, b: seq<Ranged>)
    ensures DecodedLength(a + b) == DecodedLength(a) + DecodedLength(b)
    decreases |b|
  {
    if b == [] {
      assert a + b == a;
    } else {
      assert (a + b)[..|a + b| - 1] == a + b[..|b| - 1];
      LengthConcat(a, b[..|b| - 1]);
    }
  }

  lemma {:induction false} TilesOneMore(xml: Text, declaration: Text -> bool, tokens: seq<Token>, t: Token)
    requires Tiles(tokens, t.start) && t.start < t.end
    requires AreTokens(xml, declaration, tokens) && IsToken(xml, declaration, t)
    ensures Tiles(tokens + [t], t.end) && AreTokens(xml, declaration, tokens + [t])
  {
    hide IsToken;
  }

  lemma {:induction false} NestOneMore(xml: Text, tokens: seq<Token>, t: Token)
    ensures Nest(xml, tokens + [t]) == Grow(xml, Nest(xml, tokens), t)
    ensures TotalCost(tokens + [t]) == TotalCost(tokens) + Cost(t)
  {
    assert (tokens + [t])[..|tokens|] == tokens;
  }

  lemma {:induction false} LengthOneMore(tokens: seq<Token>, t: Token)
    ensures EventsOf(tokens + [t]) == EventsOf(tokens) + t.events
    ensures DecodedLength(EventsOf(tokens + [t])) == DecodedLength(EventsOf(tokens)) + DecodedLength(t.events)
  {
    assert (tokens + [t])[..|tokens|] == tokens;
    LengthConcat(EventsOf(tokens), t.events);
  }

  lemma {:induction false} TextEventsEffect(n: Nesting, text: Text, start: nat, end: nat, syntax: Syntax)
    requires n.Nested?
    ensures NestFrom(n, TextEvents(text, start, end, syntax)) == n
    ensures DecodedLength(TextEvents(text, start, end, syntax)) == |text|
  {
    if text != [] {
      var e := [Ranged(Characters(text), start, end, syntax)];
      assert e[..0] == [];
    }
  }

  /** What an element makes of the tree: too deep, a second root, or one more element. */
  function Entered(n: Nesting, tag: Tag): Nesting
    requires n.Nested?
  {
    var roots := if n.stack == [] then n.roots + 1 else n.roots;
    if |n.stack| + 1 > MAX_DEPTH || roots > 1 then Broken
    else Nested(if tag.selfClosing then n.stack else n.stack + [tag.name], roots)
  }

  lemma {:induction false} ElementEventsEffect(n: Nesting, tag: Tag, start: nat, end: nat)
    requires n.Nested? && IsTag(tag)
    ensures NestFrom(n, ElementEvents(tag, start, end)) == Entered(n, tag)
    ensures DecodedLength(ElementEvents(tag, start, end)) == 0
  {
    var events := ElementEvents(tag, start, end);
    var first := [events[0]];
    assert first[..0] == [];
    assert NestFrom(n, first) == Enter(n, events[0].event);
    assert DecodedLength(first) == 0;
    if tag.selfClosing {
      assert |events| == 2 && events[..1] == first;
      assert (n.stack + [tag.name])[..|n.stack|] == n.stack;
      assert NestFrom(n, events) == Enter(NestFrom(n, first), events[1].event);
    } else {
      assert events == first;
    }
  }

  lemma {:induction false} EndEventEffect(n: Nesting, name: Text, start: nat, end: nat)
    ensures NestFrom(n, [Ranged(End(name), start, end, TagSyntax)]) == Enter(n, End(name))
    ensures DecodedLength([Ranged(End(name), start, end, TagSyntax)]) == 0
  {
    assert [Ranged(End(name), start, end, TagSyntax)][..0] == [];
  }

  // ----- the shape of a token -----

  /** The shape of the token that starts at an offset, read off the source. */
  function ShapeAt(xml: Text, start: nat): nat
    requires start < |xml|
  {
    if start < ContentStart(xml) then 0
    else if xml[start] != LESS then 1
    else if OccursAt(xml, COMMENT_OPEN, start) then 2
    else if OccursAt(xml, INSTRUCTION_OPEN, start) then 3
    else if OccursAt(xml, CDATA_OPEN, start) then 4
    else if start + 1 < |xml| && xml[start + 1] == SLASH then 6
    else 5
  }

  function ShapeOf(kind: Kind): nat {
    match kind
    case Mark => 0
    case Run => 1
    case Comment => 2
    case Instruction(_) => 3
    case Cdata => 4
    case Element(_) => 5
    case EndElement(_) => 6
  }

  lemma {:induction false} OpeningUnits(xml: Text, start: nat)
    requires start < |xml|
    ensures OccursAt(xml, COMMENT_OPEN, start) ==> start + 4 <= |xml| && xml[start] == LESS && xml[start + 1] == 33 && xml[start + 2] == 45
    ensures OccursAt(xml, INSTRUCTION_OPEN, start) ==> start + 2 <= |xml| && xml[start] == LESS && xml[start + 1] == 63
    ensures OccursAt(xml, CDATA_OPEN, start) ==> start + 9 <= |xml| && xml[start] == LESS && xml[start + 1] == 33 && xml[start + 2] == 91
  {
    if OccursAt(xml, COMMENT_OPEN, start) {
      assert xml[start..start + 4][0] == LESS && xml[start..start + 4][1] == 33 && xml[start..start + 4][2] == 45;
    }
    if OccursAt(xml, INSTRUCTION_OPEN, start) {
      assert xml[start..start + 2][0] == LESS && xml[start..start + 2][1] == 63;
    }
    if OccursAt(xml, CDATA_OPEN, start) {
      assert xml[start..start + 9][0] == LESS && xml[start..start + 9][1] == 33 && xml[start..start + 9][2] == 91;
    }
  }

  lemma {:induction false} ElementStartsWithName(xml: Text, t: Token)
    requires IsElement(xml, t)
    ensures t.start + 1 < |xml| && IsNameStart(xml[t.start + 1])
  {
    var source, name := xml[t.start + 1..t.end - 1], t.kind.tag.name;
    assert source[0] == name[0];
  }

  lemma {:induction false} TokensHaveTheirShape(xml: Text, declaration: Text -> bool, t: Token)
    requires IsToken(xml, declaration, t)
    ensures t.start < t.end <= |xml| && ShapeAt(xml, t.start) == ShapeOf(t.kind)
  {
    match t.kind
    case Mark =>
    case Run => assert xml[t.start..t.end][0] != LESS;
    case Comment => OpeningUnits(xml, t.start);
    case Instruction(_) => OpeningUnits(xml, t.start);
    case Cdata => OpeningUnits(xml, t.start);
    case Element(_) =>
      OpeningUnits(xml, t.start);
      ElementStartsWithName(xml, t);
    case EndElement(_) =>
      OpeningUnits(xml, t.start);
      assert xml[t.start + 1..t.end - 1][0] == SLASH;
  }

  // ----- cutting tokens -----

  datatype Lexeme = NoToken(why: Refusal) | Lexed(token: Token)

  lemma {:induction false} FirstsAgree(t: Text, needle: Text, from: nat, at: nat, at': nat)
    requires FirstAt(t, needle, from, at')
    ensures FirstAt(t, needle, from, at) ==> at == at'
    ensures !NoneFrom(t, needle, from)
  {
  }

  lemma {:induction false} RunEnds(xml: Text, t: Token, start: nat, end: nat)
    requires IsRun(xml, t) && t.start == start < end <= |xml|
    requires LESS !in xml[start..end] && (end == |xml| || xml[end] == LESS)
    ensures t.end == end
  {
    SliceHas(xml, start, end);
    SliceHas(xml, start, t.end);
  }

  /** A run of character data between markup. */
  method CutRun(xml: Text, declaration: Text -> bool, start: nat, end: nat, outside: bool, ghost guess: Token) returns (r: Lexeme)
    requires ContentStart(xml) <= start < end <= |xml| <= MAX_INPUT
    requires LESS !in xml[start..end] && (end == |xml| || xml[end] == LESS)
    ensures r.Lexed? ==> IsRun(xml, r.token) && r.token.start == start && r.token.end == end && StandsWhere(xml, !outside, r.token)
    ensures IsRun(xml, guess) && guess.start == start && StandsWhere(xml, !outside, guess) ==> r == Lexed(guess)
  {
    var raw := xml[start..end];
    if IsRun(xml, guess) && guess.start == start {
      RunEnds(xml, guess, start, end);
    }
    var close := Find(raw, CDATA_CLOSE, 0);
    if close <= |raw| {
      return NoToken(Invalid);
    }
    if outside && !AreSpaces(raw) {
      return NoToken(Invalid);
    }
    var text := DecodeText(Normalise(raw));
    if text.Refused? {
      return NoToken(text.why);
    }
    r := Lexed(Token(Run, start, end, TextEvents(text.text, start, end, TextSyntax)));
  }

  method CutComment(xml: Text, start: nat, ghost guess: Token) returns (r: Lexeme)
    requires start + 4 <= |xml| && OccursAt(xml, COMMENT_OPEN, start)
    ensures r.Lexed? ==> IsComment(xml, r.token) && r.token.start == start
    ensures IsComment(xml, guess) && guess.start == start ==> r == Lexed(guess)
  {
    var end := Find(xml, COMMENT_CLOSE, start + 4);
    if IsComment(xml, guess) && guess.start == start {
      FirstsAgree(xml, COMMENT_CLOSE, start + 4, end, guess.end - 3);
    }
    if end > |xml| || end - start > MAX_TAG {
      return NoToken(Invalid);
    }
    var body := xml[start + 4..end];
    var dashes := Find(body, TWO_DASHES, 0);
    if dashes <= |body| || (body != [] && body[|body| - 1] == 45) {
      return NoToken(Invalid);
    }
    r := Lexed(Token(Comment, start, end + 3, []));
  }

  method CutTarget(body: Text, ghost guess: Text) returns (r: EndName)
    ensures r.EndName? ==> IsTarget(body, r.name)
    ensures IsTarget(body, guess) ==> r == EndName(guess)
  {
    var end := 0;
    while end < |body| && !IsSpace(body[end])
      invariant end <= |body| && forall i :: 0 <= i < end ==> !IsSpace(body[i])
    {
      end := end + 1;
    }
    if IsTarget(body, guess) {
      assert forall i :: 0 <= i < |guess| ==> body[i] == guess[i] && IsNameUnit(guess[i]) && !IsSpace(body[i]);
      assert |guess| == end;
    }
    if !IsName(body[..end]) {
      return NoName;
    }
    r := EndName(body[..end]);
  }

  lemma {:induction false} OccursInside(t: Text, needle: Text, at: nat)
    requires OccursAt(t, needle, at)
    ensures at + |needle| <= |t|
  {
  }

  method CutInstruction(xml: Text, declaration: Text -> bool, start: nat, ghost guess: Token) returns (r: Lexeme)
    requires start + 2 <= |xml| && OccursAt(xml, INSTRUCTION_OPEN, start)
    ensures r.Lexed? ==> IsInstruction(xml, declaration, r.token) && r.token.start == start
    ensures IsInstruction(xml, declaration, guess) && guess.start == start ==> r == Lexed(guess)
  {
    hide OccursAt, NoneFrom, IsTarget, IsXmlTarget, IsName;
    var end := Find(xml, INSTRUCTION_CLOSE, start + 2);
    if IsInstruction(xml, declaration, guess) && guess.start == start {
      FirstsAgree(xml, INSTRUCTION_CLOSE, start + 2, end, guess.end - 2);
    }
    if end > |xml| || end - start > MAX_TAG {
      return NoToken(Invalid);
    }
    OccursInside(xml, INSTRUCTION_CLOSE, end);
    var body := xml[start + 2..end];
    var target := CutTarget(body, if guess.kind.Instruction? then guess.kind.target else []);
    if target.NoName? {
      return NoToken(Invalid);
    }
    if IsXmlTarget(target.name) && (start != ContentStart(xml) || !declaration(body)) {
      return NoToken(Invalid);
    }
    r := Lexed(Token(Instruction(target.name), start, end + 2, []));
  }

  method CutCdata(xml: Text, start: nat, ghost guess: Token) returns (r: Lexeme)
    requires start + 9 <= |xml| && OccursAt(xml, CDATA_OPEN, start)
    ensures r.Lexed? ==> IsCdata(xml, r.token) && r.token.start == start
    ensures IsCdata(xml, guess) && guess.start == start ==> r == Lexed(guess)
  {
    var end := Find(xml, CDATA_CLOSE, start + 9);
    if IsCdata(xml, guess) && guess.start == start {
      FirstsAgree(xml, CDATA_CLOSE, start + 9, end, guess.end - 3);
    }
    if end > |xml| {
      return NoToken(Invalid);
    }
    r := Lexed(Token(Cdata, start, end + 3, TextEvents(Normalise(xml[start + 9..end]), start + 9, end, CdataSyntax)));
  }

  lemma {:induction false} TagEndsAgree(xml: Text, start: nat, at: nat, at': nat)
    requires TagEndsAt(xml, start, at) && TagEndsAt(xml, start, at')
    ensures at == at'
  {
    assert ClosesAt(xml, start, at) && ClosesAt(xml, start, at');
  }

  method CutEndTag(xml: Text, start: nat, close: nat, ghost guess: Token) returns (r: Lexeme)
    requires IsTagRange(xml, Token(Mark, start, close + 1, [])) && start + 1 < close && xml[start + 1] == SLASH
    ensures r.Lexed? ==> IsEndElement(xml, r.token) && r.token.start == start
    ensures IsEndElement(xml, guess) && guess.start == start && guess.end == close + 1 ==> r == Lexed(guess)
  {
    hide IsEndTag, TagEndsAt;
    var name := ParseEndTag(xml[start + 1..close], if guess.kind.EndElement? then guess.kind.name else []);
    if name.NoName? {
      return NoToken(Invalid);
    }
    r := Lexed(Token(EndElement(name.name), start, close + 1, [Ranged(End(name.name), start, close + 1, TagSyntax)]));
  }

  method CutStartTag(xml: Text, start: nat, close: nat, ghost guess: Token) returns (r: Lexeme)
    requires IsTagRange(xml, Token(Mark, start, close + 1, []))
    ensures r.Lexed? ==> IsElement(xml, r.token) && r.token.start == start
    ensures IsElement(xml, guess) && guess.start == start && guess.end == close + 1 ==> r == Lexed(guess)
  {
    hide IsTag, WriteTag, TagEndsAt, ElementEvents;
    var parsed := ParseStartTag(xml[start + 1..close], if guess.kind.Element? then guess.kind.tag else Tag([], [], [], false));
    if parsed.NotParsed? {
      return NoToken(parsed.why);
    }
    r := Lexed(Token(Element(parsed.tag), start, close + 1, ElementEvents(parsed.tag, start, close + 1)));
  }

  predicate IsTagToken(xml: Text, t: Token) {
    IsElement(xml, t) || IsEndElement(xml, t)
  }

  /** Only an end tag has a slash after its opening bracket. */
  lemma {:induction false} TagStart(xml: Text, t: Token)
    requires IsTagToken(xml, t)
    ensures t.start + 1 < t.end - 1 && (xml[t.start + 1] == SLASH <==> t.kind.EndElement?)
  {
    var source := xml[t.start + 1..t.end - 1];
    if IsElement(xml, t) {
      assert source[0] == t.kind.tag.name[0];
    } else {
      assert source[0] == SLASH;
    }
  }

  lemma {:induction false} TagTokenRange(xml: Text, t: Token)
    requires IsTagToken(xml, t)
    ensures t.start + 2 <= t.end && TagEndsAt(xml, t.start + 1, t.end - 1) && t.end - t.start - 2 <= MAX_TAG
    ensures if t.kind.EndElement? then IsEndElement(xml, t) else IsElement(xml, t)
  {
    hide TagEndsAt;
  }

  lemma {:induction false} TagRange(xml: Text, start: nat, close: nat)
    requires start < |xml| && xml[start] == LESS && TagEndsAt(xml, start + 1, close) && close - start - 1 <= MAX_TAG
    ensures start < close < |xml| && IsTagRange(xml, Token(Mark, start, close + 1, []))
  {
  }

  method CutTag(xml: Text, start: nat, ghost guess: Token) returns (r: Lexeme)
    requires start < |xml| && xml[start] == LESS
    ensures r.Lexed? ==> IsTagToken(xml, r.token) && r.token.start == start
    ensures IsTagToken(xml, guess) && guess.start == start ==> r == Lexed(guess)
  {
    hide IsElement, IsEndElement, TagEndsAt, IsTagRange;
    var end := TagEnd(xml, start + 1);
    if IsTagToken(xml, guess) && guess.start == start {
      TagStart(xml, guess);
      TagTokenRange(xml, guess);
      if end.Offset? {
        TagEndsAgree(xml, start + 1, end.at, guess.end - 1);
      }
    }
    if end.NoOffset? {
      return NoToken(end.why);
    }
    TagRange(xml, start, end.at);
    if start + 1 < end.at && xml[start + 1] == SLASH {
      r := CutEndTag(xml, start, end.at, guess);
    } else {
      r := CutStartTag(xml, start, end.at, guess);
    }
  }

  lemma {:induction false} DeclarationsAreNoTokens(xml: Text, declaration: Text -> bool, t: Token)
    requires IsToken(xml, declaration, t) && OccursAt(xml, DECLARATION_OPEN, t.start)
    ensures t.kind.Comment? || t.kind.Cdata?
  {
    assert xml[t.start..t.start + 2][0] == LESS && xml[t.start..t.start + 2][1] == 33;
    TokensHaveTheirShape(xml, declaration, t);
    OpeningUnits(xml, t.start);
    if IsTagToken(xml, t) {
      TagStart(xml, t);
    }
    if t.kind.Element? {
      ElementStartsWithName(xml, t);
    }
  }

  lemma {:induction false} MarkupIsToken(xml: Text, declaration: Text -> bool, t: Token)
    requires IsComment(xml, t) || IsInstruction(xml, declaration, t) || IsCdata(xml, t) || IsTagToken(xml, t)
    ensures IsToken(xml, declaration, t) && !t.kind.Mark? && !t.kind.Run?
    ensures t.kind.Cdata? ==> IsCdata(xml, t)
    ensures IsComment(xml, t) || IsInstruction(xml, declaration, t) || IsTagToken(xml, t) ==> !t.kind.Cdata?
  {
    hide OccursAt, FirstAt, IsCommentBody, IsTarget, IsXmlTarget, IsTagRange, IsTag, WriteTag, IsEndTag,
         ElementEvents, TextEvents;
  }

  /** Everything that starts with an opening bracket. */
  method CutMarkup(xml: Text, declaration: Text -> bool, start: nat, outside: bool, ghost guess: Token) returns (r: Lexeme)
    requires ContentStart(xml) <= start < |xml| && xml[start] == LESS
    ensures r.Lexed? ==> IsToken(xml, declaration, r.token) && r.token.start == start && StandsWhere(xml, !outside, r.token)
    ensures r.Lexed? ==> !r.token.kind.Mark? && !r.token.kind.Run?
    ensures IsToken(xml, declaration, guess) && guess.start == start && StandsWhere(xml, !outside, guess) ==> r == Lexed(guess)
  {
    hide IsMark, IsRun, IsComment, IsInstruction, IsCdata, IsElement, IsEndElement, OccursAt;
    if IsToken(xml, declaration, guess) && guess.start == start {
      TokensHaveTheirShape(xml, declaration, guess);
    }
    OpeningUnits(xml, start);
    if OccursAt(xml, COMMENT_OPEN, start) {
      r := CutComment(xml, start, guess);
    } else if OccursAt(xml, INSTRUCTION_OPEN, start) {
      r := CutInstruction(xml, declaration, start, guess);
    } else if OccursAt(xml, CDATA_OPEN, start) {
      if outside {
        return NoToken(Invalid);
      }
      r := CutCdata(xml, start, guess);
    } else if OccursAt(xml, DECLARATION_OPEN, start) {
      if IsToken(xml, declaration, guess) && guess.start == start {
        DeclarationsAreNoTokens(xml, declaration, guess);
      }
      r := NoToken(Unsafe);
    } else {
      r := CutTag(xml, start, guess);
    }
    if r.Lexed? {
      MarkupIsToken(xml, declaration, r.token);
    }
  }

  // ----- the scan -----

  datatype Scan = NotAccepted(why: Refusal) | Accepted(tokens: seq<Token>)

  /** What an accepted document is. */
  predicate IsDocument(xml: Text, declaration: Text -> bool, tokens: seq<Token>) {
    && IsXmlText(xml) && |xml| <= MAX_INPUT
    && Tiles(tokens, |xml|)
    && AreTokens(xml, declaration, tokens)
    && Nest(xml, tokens) == Nested([], 1)
    && TotalCost(tokens) <= MAX_TOKENS
  }

  ghost predicate NoDocument(xml: Text, declaration: Text -> bool) {
    forall tokens :: !IsDocument(xml, declaration, tokens)
  }

  /** Some document with this source, if there is one. */
  ghost function AnyDocument(xml: Text, declaration: Text -> bool): (w: seq<Token>)
    ensures NoDocument(xml, declaration) || IsDocument(xml, declaration, w)
  {
    if w :| IsDocument(xml, declaration, w) then w else []
  }

  lemma {:induction false} PrefixIsSound(xml: Text, w: seq<Token>, k: nat)
    requires k <= |w| && Nest(xml, w).Nested?
    ensures Nest(xml, w[..k]).Nested? && TotalCost(w[..k]) <= TotalCost(w)
    decreases |w|
  {
    if k < |w| {
      PrefixIsSound(xml, w[..|w| - 1], k);
      assert w[..|w| - 1][..k] == w[..k];
    } else {
      assert w[..k] == w;
    }
  }

  lemma {:induction false} TileAfter(w: seq<Token>, end: nat, tokens: seq<Token>, cursor: nat)
    requires Tiles(w, end) && tokens <= w && Tiles(tokens, cursor)
    ensures |tokens| < |w| ==> w[|tokens|].start == cursor < w[|tokens|].end
    ensures |tokens| == |w| ==> tokens == w && cursor == end
  {
  }

  /** A document that starts with these tokens goes on with a token that keeps it in shape. */
  lemma {:induction false} GoesOn(xml: Text, declaration: Text -> bool, w: seq<Token>, tokens: seq<Token>, cursor: nat)
    requires IsDocument(xml, declaration, w) && tokens <= w && Tiles(tokens, cursor) && cursor < |xml|
    ensures |tokens| < |w| && w[|tokens|].start == cursor && IsToken(xml, declaration, w[|tokens|])
    ensures Grow(xml, Nest(xml, tokens), w[|tokens|]).Nested? && TotalCost(tokens) + Cost(w[|tokens|]) <= MAX_TOKENS
  {
    TileAfter(w, |xml|, tokens, cursor);
    var k := |tokens|;
    assert w[..k + 1] == tokens + [w[k]];
    PrefixIsSound(xml, w, k + 1);
    NestOneMore(xml, tokens, w[k]);
  }

  lemma {:induction false} EndsHere(xml: Text, declaration: Text -> bool, w: seq<Token>, tokens: seq<Token>)
    requires IsDocument(xml, declaration, w) && tokens <= w && Tiles(tokens, |xml|)
    ensures w == tokens
  {
    TileAfter(w, |xml|, tokens, |xml|);
    if |tokens| < |w| {
      TilesEndLast(w, |xml|, |tokens|);
    }
  }

  lemma {:induction false} TilesEndLast(tokens: seq<Token>, end: nat, i: nat)
    requires Tiles(tokens, end) && i < |tokens|
    ensures tokens[i].end <= end
    decreases |tokens| - i
  {
    if i + 1 < |tokens| {
      TilesEndLast(tokens, end, i + 1);
    }
  }

  /** What the scan has seen so far: the tokens, and what follows from them. */
  ghost predicate IsScanned(xml: Text, declaration: Text -> bool, tokens: seq<Token>, cursor: nat, n: Nesting, count: nat, decoded: nat) {
    && Tiles(tokens, cursor)
    && AreTokens(xml, declaration, tokens)
    && Nest(xml, tokens) == n
    && TotalCost(tokens) == count
    && DecodedLength(EventsOf(tokens)) == decoded <= cursor
  }

  lemma {:induction false} ScannedGrows(xml: Text, declaration: Text -> bool, tokens: seq<Token>, t: Token, n: Nesting, count: nat, decoded: nat, length: nat)
    requires IsScanned(xml, declaration, tokens, t.start, n, count, decoded)
    requires IsToken(xml, declaration, t) && t.start < t.end
    requires DecodedLength(t.events) == length <= t.end - t.start
    ensures IsScanned(xml, declaration, tokens + [t], t.end, Grow(xml, n, t), count + Cost(t), decoded + length)
  {
    TilesOneMore(xml, declaration, tokens, t);
    NestOneMore(xml, tokens, t);
    LengthOneMore(tokens, t);
  }

  lemma {:induction false} MarkupKinds(xml: Text, declaration: Text -> bool, t: Token)
    requires IsToken(xml, declaration, t) && !t.kind.Mark? && !t.kind.Run?
    ensures match t.kind
            case Cdata => IsCdata(xml, t)
            case Element(_) => IsElement(xml, t)
            case EndElement(_) => IsEndElement(xml, t)
            case _ => t.events == []
  {
  }

  class Scanner {
    const xml: Text
    const declaration: Text -> bool
    ghost const guess: seq<Token>
    var tokens: seq<Token>
    var stack: seq<Text>
    var cursor: nat
    var count: nat
    var roots: nat
    var decodedChars: nat

    constructor (xml: Text, declaration: Text -> bool, ghost guess: seq<Token>)
      requires |xml| <= MAX_INPUT
      ensures this.xml == xml && this.declaration == declaration && this.guess == guess && Valid()
    {
      this.xml := xml;
      this.declaration := declaration;
      this.guess := guess;
      tokens := if StartsWithMark(xml) then [Token(Mark, 0, 1, [])] else [];
      stack, cursor, count, roots, decodedChars := [], ContentStart(xml), 0, 0, 0;
      new;
      StartsWell(xml, declaration, guess);
    }

    ghost predicate Valid()
      reads this
    {
      && |xml| <= MAX_INPUT && ContentStart(xml) <= cursor <= |xml|
      && IsScanned(xml, declaration, tokens, cursor, Nested(stack, roots), count, decodedChars)
      && count <= MAX_TOKENS
      && (IsDocument(xml, declaration, guess) ==> tokens <= guess)
    }

    /** The guess's next token. */
    ghost function Next(): Token
      reads this
    {
      if |tokens| < |guess| then guess[|tokens|] else Token(Mark, 0, 0, [])
    }

    /** The next token of a document with this source starts here and keeps it in shape. */
    ghost predicate Foresees(t: Token)
      reads this
    {
      && |tokens| < |guess| && t == Next() && t.start == cursor && IsToken(xml, declaration, t)
      && Grow(xml, Nested(stack, roots), t).Nested? && count + Cost(t) <= MAX_TOKENS
    }

    lemma {:induction false} LooksAhead()
      requires Valid() && cursor < |xml|
      ensures IsDocument(xml, declaration, guess) ==> Foresees(Next())
    {
      if IsDocument(xml, declaration, guess) {
        GoesOn(xml, declaration, guess, tokens, cursor);
      }
    }

    /** Counts and appends a token that keeps the document in shape; the decoded limit can never fire. */
    method Append(t: Token, nextStack: seq<Text>, nextRoots: nat, length: nat) returns (ok: bool)
      requires Valid() && IsToken(xml, declaration, t) && t.start == cursor < t.end <= |xml|
      requires Grow(xml, Nested(stack, roots), t) == Nested(nextStack, nextRoots)
      requires DecodedLength(t.events) == length <= t.end - t.start
      requires IsDocument(xml, declaration, guess) ==> Foresees(t)
      modifies this
      ensures ok ==> Valid() && cursor == t.end
      ensures !ok ==> !IsDocument(xml, declaration, guess)
    {
      hide IsDocument, IsToken, Grow, Cost, DecodedLength, Tiles, AreTokens, Nest, TotalCost, EventsOf;
      ScannedGrows(xml, declaration, tokens, t, Nested(stack, roots), count, decodedChars, length);
      if count + Cost(t) > MAX_TOKENS {
        return false;
      }
      LongerPrefix(tokens, t, guess);
      tokens := tokens + [t];
      stack, roots := nextStack, nextRoots;
      count := count + Cost(t);
      decodedChars := decodedChars + length;
      if decodedChars > MAX_DECODED {
        assert false;
      }
      cursor := t.end;
      ok := true;
    }

    /** The text before the next markup, or up to the end. */
    method ScanRun(end: nat) returns (ok: bool, why: Refusal)
      requires Valid() && cursor < end <= |xml| && LESS !in xml[cursor..end] && (end == |xml| || xml[end] == LESS)
      modifies this
      ensures if ok then Valid() && cursor == end else !IsDocument(xml, declaration, guess)
    {
      LooksAhead();
      RunIsAhead(xml, declaration, cursor, end, Next());
      var cut := CutRun(xml, declaration, cursor, end, stack == [], Next());
      if cut.NoToken? {
        return false, cut.why;
      }
      ghost var text := TextOf(xml[cursor..end]).text;
      TextIsNoLonger(xml[cursor..end]);
      TextEventsEffect(Nested(stack, roots), text, cursor, end, TextSyntax);
      ok := Append(cut.token, stack, roots, |EventText(cut.token)|);
      why := ResourceLimit;
    }

    method ScanCdata(t: Token) returns (ok: bool, why: Refusal)
      requires Valid() && IsCdata(xml, t) && t.start == cursor && stack != []
      requires IsDocument(xml, declaration, guess) ==> Foresees(t)
      modifies this
      ensures if ok then Valid() && cursor == t.end else !IsDocument(xml, declaration, guess)
    {
      TextEventsEffect(Nested(stack, roots), Normalise(xml[t.start + 9..t.end - 3]), t.start + 9, t.end - 3, CdataSyntax);
      ok := Append(t, stack, roots, |EventText(t)|);
      why := ResourceLimit;
    }

    method ScanElement(t: Token) returns (ok: bool, why: Refusal)
      requires Valid() && IsElement(xml, t) && t.start == cursor
      requires IsDocument(xml, declaration, guess) ==> Foresees(t)
      modifies this
      ensures if ok then Valid() && cursor == t.end else !IsDocument(xml, declaration, guess)
    {
      hide IsDocument, IsScanned, Cost, NestFrom, DecodedLength, ElementEvents, IsTag, WriteTag, TagEndsAt,
           ContentStart;
      ok, why := false, Invalid;
      var tag := t.kind.tag;
      ElementEventsEffect(Nested(stack, roots), tag, t.start, t.end);
      var nextRoots := if stack == [] then roots + 1 else roots;
      if nextRoots > 1 {
        return;
      }
      why := ResourceLimit;
      if |stack| + 1 > MAX_DEPTH {
        return;
      }
      ok := Append(t, if tag.selfClosing then stack else stack + [tag.name], nextRoots, 0);
    }

    method ScanEndElement(t: Token) returns (ok: bool, why: Refusal)
      requires Valid() && IsEndElement(xml, t) && t.start == cursor
      requires IsDocument(xml, declaration, guess) ==> Foresees(t)
      modifies this
      ensures if ok then Valid() && cursor == t.end else !IsDocument(xml, declaration, guess)
    {
      hide IsDocument, IsScanned, Cost, NestFrom, DecodedLength, IsEndTag, TagEndsAt, ContentStart;
      ok, why := false, Invalid;
      EndEventEffect(Nested(stack, roots), t.kind.name, t.start, t.end);
      if stack == [] || stack[|stack| - 1] != t.kind.name {
        return;
      }
      ok := Append(t, stack[..|stack| - 1], roots, 0);
      why := ResourceLimit;
    }

    /** One piece of markup. */
    method ScanMarkup() returns (ok: bool, why: Refusal)
      requires Valid() && cursor < |xml| && xml[cursor] == LESS
      modifies this
      ensures if ok then Valid() && cursor > old(cursor) else !IsDocument(xml, declaration, guess)
    {
      hide IsToken, IsDocument, IsScanned, Cost, ShapeAt, ShapeOf;
      LooksAhead();
      var cut := CutMarkup(xml, declaration, cursor, stack == [], Next());
      if cut.NoToken? {
        return false, cut.why;
      }
      var t := cut.token;
      TokensHaveTheirShape(xml, declaration, t);
      MarkupKinds(xml, declaration, t);
      if t.kind.Cdata? {
        ok, why := ScanCdata(t);
      } else if t.kind.Element? {
        ok, why := ScanElement(t);
      } else if t.kind.EndElement? {
        ok, why := ScanEndElement(t);
      } else {
        ok := Append(t, stack, roots, 0);
        why := ResourceLimit;
      }
    }

    /** The text up to the next markup, and the markup. */
    method ScanNext() returns (ok: bool, why: Refusal)
      requires Valid() && cursor < |xml|
      modifies this
      ensures if ok then Valid() && cursor > old(cursor) else !IsDocument(xml, declaration, guess)
    {
      ok, why := true, Invalid;
      var opening := IndexOf(xml, LESS, cursor);
      if opening > cursor {
        ok, why := ScanRun(opening);
      }
      if ok && opening < |xml| {
        ok, why := ScanMarkup();
      }
    }
  }

  /** The characters of the one text event a token may have. */
  function EventText(t: Token): Text {
    if t.events == [] || !t.events[0].event.Characters? then [] else t.events[0].event.text
  }

  lemma {:induction false} TextIsNoLonger(raw: Text)
    ensures TextOf(raw).Decoded? ==> |TextOf(raw).text| <= |raw|
  {
    ExpandIsNoLonger(Normalise(raw));
  }

  /** Where there is no opening bracket and no mark, only a run can start. */
  lemma {:induction false} RunIsAhead(xml: Text, declaration: Text -> bool, start: nat, end: nat, t: Token)
    requires ContentStart(xml) <= start < end <= |xml| && LESS !in xml[start..end]
    ensures IsToken(xml, declaration, t) && t.start == start ==> IsRun(xml, t)
  {
    SliceHas(xml, start, end);
    if IsToken(xml, declaration, t) && t.start == start {
      TokensHaveTheirShape(xml, declaration, t);
    }
  }

  /** Nothing, or the byte order mark, starts every document with this source. */
  lemma {:induction false} StartsWell(xml: Text, declaration: Text -> bool, guess: seq<Token>)
    ensures var tokens := if StartsWithMark(xml) then [Token(Mark, 0, 1, [])] else [];
      && IsScanned(xml, declaration, tokens, ContentStart(xml), Nested([], 0), 0, 0)
      && (IsDocument(xml, declaration, guess) ==> tokens <= guess)
  {
    assert IsScanned(xml, declaration, [], 0, Nested([], 0), 0, 0);
    if StartsWithMark(xml) {
      var mark := Token(Mark, 0, 1, []);
      ScannedGrows(xml, declaration, [], mark, Nested([], 0), 0, 0, 0);
      assert [] + [mark] == [mark];
      if IsDocument(xml, declaration, guess) {
        GoesOn(xml, declaration, guess, [], 0);
        TokensHaveTheirShape(xml, declaration, guess[0]);
      }
    }
  }

  /** scanBoundedXml: accepts exactly the inputs that are documents. */
  method ScanBoundedXml(xml: Text, declaration: Text -> bool) returns (r: Scan)
    ensures r.Accepted? ==> IsDocument(xml, declaration, r.tokens)
    ensures r.NotAccepted? ==> NoDocument(xml, declaration)
  {
    if |xml| > MAX_INPUT {
      return NotAccepted(ResourceLimit);
    }
    if !IsXmlText(xml) {
      return NotAccepted(Invalid);
    }
    ghost var guess := AnyDocument(xml, declaration);
    var scanner := new Scanner(xml, declaration, guess);
    while scanner.cursor < |xml|
      invariant fresh(scanner) && scanner.xml == xml && scanner.declaration == declaration && scanner.guess == guess
      invariant scanner.Valid()
      decreases |xml| - scanner.cursor
    {
      var ok, why := scanner.ScanNext();
      if !ok {
        return NotAccepted(why);
      }
    }
    if IsDocument(xml, declaration, guess) {
      EndsHere(xml, declaration, guess, scanner.tokens);
    }
    if scanner.stack != [] || scanner.roots != 1 {
      return NotAccepted(Invalid);
    }
    r := Accepted(scanner.tokens);
  }

  // ----- what a document's events and tokens are like -----

  lemma {:induction false} TilesAreOrdered(tokens: seq<Token>, end: nat, i: nat, j: nat)
    requires Tiles(tokens, end) && i < j < |tokens|
    ensures tokens[i].end <= tokens[j].start
    decreases j
  {
    if i < j - 1 {
      TilesAreOrdered(tokens, end, i, j - 1);
    }
  }

  /** Event ranges lie inside the token they come from, in order. */
  lemma {:induction false} TokenEventsAreInside(xml: Text, declaration: Text -> bool, t: Token)
    requires IsToken(xml, declaration, t)
    ensures forall k :: 0 <= k < |t.events| ==> t.start <= t.events[k].start <= t.events[k].end <= t.end
    ensures forall k, l :: 0 <= k < l < |t.events| ==> t.events[k].end <= t.events[l].start
  {
  }

  /** The events of an accepted document have ordered, disjoint source ranges. */
  lemma {:induction false} EventsAreOrdered(xml: Text, declaration: Text -> bool, tokens: seq<Token>, i: nat, k: nat, j: nat, l: nat)
    requires IsDocument(xml, declaration, tokens)
    requires i < |tokens| && k < |tokens[i].events| && j < |tokens| && l < |tokens[j].events|
    requires i < j || (i == j && k < l)
    ensures tokens[i].events[k].end <= tokens[j].events[l].start
  {
    TokenEventsAreInside(xml, declaration, tokens[i]);
    TokenEventsAreInside(xml, declaration, tokens[j]);
    if i < j {
      TilesAreOrdered(tokens, |xml|, i, j);
    }
  }

  lemma {:induction false} RunsEndTogether(xml: Text, a: Token, b: Token)
    requires IsRun(xml, a) && IsRun(xml, b) && a.start == b.start
    ensures a.end >= b.end
  {
    if a.end < |xml| {
      assert forall i :: a.start <= i < b.end ==> xml[a.start..b.end][i - a.start] == xml[i];
      assert forall i :: a.start <= i < b.end ==> xml[i] in xml[a.start..b.end];
    }
  }

  /** Where a token starts, the source decides what kind it is and where it ends: the tiling is unique. */
  lemma {:induction false} TokensAreDetermined(xml: Text, declaration: Text -> bool, a: Token, b: Token)
    requires IsToken(xml, declaration, a) && IsToken(xml, declaration, b) && a.start == b.start
    ensures ShapeOf(a.kind) == ShapeOf(b.kind) && a.end == b.end
  {
    hide IsTag, WriteTag, TextOf, IsEndTag, ElementEvents, TextEvents, IsTarget;
    TokensHaveTheirShape(xml, declaration, a);
    TokensHaveTheirShape(xml, declaration, b);
    if a.kind.Run? {
      RunsEndTogether(xml, a, b);
      RunsEndTogether(xml, b, a);
    }
  }

  lemma {:induction false} MoreFollows(tokens: seq<Token>, end: nat, i: nat)
    requires Tiles(tokens, end) && i < |tokens| && tokens[i].end < end
    ensures i + 1 < |tokens|
  {
  }

  /** Two tilings of the same source have the same boundaries. */
  lemma {:induction false} TilingsAgree(xml: Text, declaration: Text -> bool, a: seq<Token>, b: seq<Token>, i: nat)
    requires Tiles(a, |xml|) && Tiles(b, |xml|) && AreTokens(xml, declaration, a) && AreTokens(xml, declaration, b)
    requires i < |a|
    ensures i < |b| && a[i].start == b[i].start && a[i].end == b[i].end && ShapeOf(a[i].kind) == ShapeOf(b[i].kind)
    decreases i
  {
    TokensHaveTheirShape(xml, declaration, a[i]);
    if i > 0 {
      TilingsAgree(xml, declaration, a, b, i - 1);
      MoreFollows(b, |xml|, i - 1);
    }
    TokensAreDetermined(xml, declaration, a[i], b[i]);
  }

  /** Nesting token by token is nesting the whole event list. */
  lemma {:induction false} NestIsFromEvents(xml: Text, tokens: seq<Token>)
    requires Nest(xml, tokens).Nested?
    ensures NestFrom(Nested([], 0), EventsOf(tokens)) == Nest(xml, tokens)
  {
    if tokens != [] {
      var front, last := tokens[..|tokens| - 1], tokens[|tokens| - 1];
      NestIsFromEvents(xml, front);
      NestConcat(Nested([], 0), EventsOf(front), last.events);
    }
  }

  /** At no point of an accepted document are more than 128 elements open, or is there a second root. */
  lemma {:induction false} DepthIsBounded(xml: Text, declaration: Text -> bool, tokens: seq<Token>, k: nat)
    requires IsDocument(xml, declaration, tokens) && k <= |EventsOf(tokens)|
    ensures var n := NestFrom(Nested([], 0), EventsOf(tokens)[..k]); n.Nested? && |n.stack| <= MAX_DEPTH && n.roots <= 1
  {
    NestIsFromEvents(xml, tokens);
    DepthUpTo(Nested([], 0), EventsOf(tokens), k);
  }

  /** Decoded text is never longer than its source, so the limit on decoded characters is never reached. */
  lemma {:induction false} DecodedFits(xml: Text, declaration: Text -> bool, tokens: seq<Token>, end: nat)
    requires Tiles(tokens, end) && AreTokens(xml, declaration, tokens)
    ensures DecodedLength(EventsOf(tokens)) <= end
    decreases |tokens|
  {
    if tokens != [] {
      var front, last := tokens[..|tokens| - 1], tokens[|tokens| - 1];
      DecodedFits(xml, declaration, front, last.start);
      LengthConcat(EventsOf(front), last.events);
      TokenDecodes(xml, declaration, last);
    }
  }

  lemma {:induction false} TokenDecodes(xml: Text, declaration: Text -> bool, t: Token)
    requires IsToken(xml, declaration, t)
    ensures DecodedLength(t.events) <= t.end - t.start
  {
    match t.kind
    case Run =>
      TextIsNoLonger(xml[t.start..t.end]);
      TextEventsEffect(Nested([], 0), TextOf(xml[t.start..t.end]).text, t.start, t.end, TextSyntax);
    case Cdata =>
      TextEventsEffect(Nested([], 0), Normalise(xml[t.start + 9..t.end - 3]), t.start + 9, t.end - 3, CdataSyntax);
    case Element(tag) => ElementEventsEffect(Nested([], 0), tag, t.start, t.end);
    case EndElement(name) => EndEventEffect(Nested([], 0), name, t.start, t.end);
    case _ =>
  }

  lemma {:induction false} EveryTokenStands(xml: Text, tokens: seq<Token>, i: nat)
    requires Nest(xml, tokens).Nested? && i < |tokens|
    ensures Nest(xml, tokens[..i]).Nested? && StandsWhere(xml, Nest(xml, tokens[..i]).stack != [], tokens[i])
  {
    hide StandsWhere, NestFrom;
    PrefixIsSound(xml, tokens, i);
    PrefixIsSound(xml, tokens, i + 1);
    assert tokens[..i + 1] == tokens[..i] + [tokens[i]];
    NestOneMore(xml, tokens[..i], tokens[i]);
  }

  /** Outside the root of a document there is only white space. */
  lemma {:induction false} OutsideIsBlank(xml: Text, declaration: Text -> bool, tokens: seq<Token>, i: nat)
    requires IsDocument(xml, declaration, tokens) && i < |tokens|
    ensures Nest(xml, tokens[..i]).Nested?
    ensures Nest(xml, tokens[..i]).stack == [] ==>
      !tokens[i].kind.Cdata? && (tokens[i].kind.Run? ==> AreSpaces(xml[tokens[i].start..tokens[i].end]))
  {
    hide IsToken, Nest, Tiles, AreTokens, TotalCost, IsXmlText;
    EveryTokenStands(xml, tokens, i);
  }

  lemma {:induction false} DepthUpTo(n: Nesting, events: seq<Ranged>, k: nat)
    requires n.Nested? && |n.stack| <= MAX_DEPTH && n.roots <= 1
    requires NestFrom(n, events).Nested? && k <= |events|
    ensures NestFrom(n, events[..k]).Nested?
    ensures |NestFrom(n, events[..k]).stack| <= MAX_DEPTH && NestFrom(n, events[..k]).roots <= 1
    decreases k
  {
    assert events[..k] + events[k..] == events;
    NestConcat(n, events[..k], events[k..]);
    BrokenStaysBroken(events[k..]);
    if k > 0 {
      DepthUpTo(n, events, k - 1);
      assert events[..k][..k - 1] == events[..k - 1];
    }
  }

  lemma {:induction false} BrokenStaysBroken(events: seq<Ranged>)
    ensures NestFrom(Broken, events) == Broken
    decreases |events|
  {
    if events != [] {
      BrokenStaysBroken(events[..|events| - 1]);
    }
  }
}
