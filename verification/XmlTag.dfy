/**
 bounded-xml.ts, lines 118-208: finding the end of a tag and reading a start tag
 (XML 1.0, Fifth Edition, sections 3.1 and 3.3.3).

 Reading a start tag is lossless and exact: what was read, written out again with the
 white space and quotes it came with, is the source; and a source that is the writing
 of any tag within the limits is read as that tag. The ghost parameter `guess` of a
 method stands for an arbitrary reading of its input.
 */
module XmlTag {
  import opened Texts
  import opened XmlText

  const LESS: CodeUnit := 60
  const GREATER: CodeUnit := 62
  const SLASH: CodeUnit := 47
  const EQUALS: CodeUnit := 61
  const DOUBLE: CodeUnit := 34
  const SINGLE: CodeUnit := 39

  const MAX_TAG: nat := 64 * 1024
  const MAX_ATTRIBUTES: nat := 64
  const MAX_VALUE: nat := 4_096

  predicate IsSpace(u: CodeUnit) {
    u == 32 || u == 9 || u == 13 || u == 10
  }

  predicate AreSpaces(t: Text) {
    forall i :: 0 <= i < |t| ==> IsSpace(t[i])
  }

  predicate IsNameStart(u: CodeUnit) {
    65 <= u <= 90 || 97 <= u <= 122 || u == 95
  }

  predicate IsNameUnit(u: CodeUnit) {
    IsNameStart(u) || IsDigit(u) || u == 46 || u == 58 || u == 45
  }

  /** The names this scanner accepts: ASCII only. */
  predicate IsName(t: Text) {
    t != [] && IsNameStart(t[0]) && forall i :: 0 <= i < |t| ==> IsNameUnit(t[i])
  }

  // ----- the end of a tag -----

  datatype Quote = NoQuote | Inside(mark: CodeUnit)

  /** The quotation that position `at` is in, for a tag whose inside starts at `start`. */
  function QuoteAt(xml: Text, start: nat, at: nat): Quote
    requires start <= at <= |xml|
  {
    if at == start then NoQuote
    else
      var before, u := QuoteAt(xml, start, at - 1), xml[at - 1];
      if before.Inside? then (if u == before.mark then NoQuote else before)
      else if u == DOUBLE || u == SINGLE then Inside(u)
      else NoQuote
  }

  predicate ClosesAt(xml: Text, start: nat, at: nat) {
    start <= at < |xml| && xml[at] == GREATER && QuoteAt(xml, start, at) == NoQuote
  }

  /** The first closing bracket outside quotation marks. */
  predicate TagEndsAt(xml: Text, start: nat, at: nat) {
    ClosesAt(xml, start, at) && forall i :: start <= i < at ==> !ClosesAt(xml, start, i)
  }

  datatype Offset = NoOffset(why: Refusal) | Offset(at: nat)

  /** tagEnd */
  method TagEnd(xml: Text, start: nat) returns (r: Offset)
    requires start <= |xml|
    ensures r.Offset? ==> TagEndsAt(xml, start, r.at) && r.at - start <= MAX_TAG
    ensures r.NoOffset? ==> forall at: nat :: TagEndsAt(xml, start, at) ==> at - start > MAX_TAG
  {
    var quote, index := NoQuote, start;
    while index < |xml|
      invariant start <= index <= |xml| && quote == QuoteAt(xml, start, index)
      invariant forall i :: start <= i < index ==> !ClosesAt(xml, start, i)
    {
      if index - start > MAX_TAG {
        return NoOffset(ResourceLimit);
      }
      var u := xml[index];
      if quote.Inside? {
        if u == quote.mark {
          quote := NoQuote;
        }
      } else if u == DOUBLE || u == SINGLE {
        quote := Inside(u);
      } else if u == GREATER {
        return Offset(index);
      }
      index := index + 1;
    }
    r := NoOffset(Invalid);
  }

  // ----- start tags -----

  /** An attribute as it was written. */
  datatype Written = Written(space: Text, name: Text, before: Text, after: Text, quote: CodeUnit, raw: Text)

  datatype Tag = Tag(name: Text, written: seq<Written>, trailing: Text, selfClosing: bool)

  datatype Attribute = Attribute(name: Text, value: Text)

  function Write(w: Written): Text {
    w.space + w.name + w.before + [EQUALS] + w.after + [w.quote] + w.raw + [w.quote]
  }

  function WriteAll(written: seq<Written>): Text {
    if written == [] then [] else WriteAll(written[..|written| - 1]) + Write(written[|written| - 1])
  }

  function Slash(selfClosing: bool): Text {
    if selfClosing then [SLASH] else []
  }

  function WriteTag(tag: Tag): Text {
    tag.name + WriteAll(tag.written) + tag.trailing + Slash(tag.selfClosing)
  }

  /** Literal white space in a value counts as a space; references are not touched. */
  function SpaceOut(t: Text): (r: Text)
    ensures |r| == |t|
  {
    if t == [] then [] else [if t[0] == 9 || t[0] == 10 then 32 else t[0]] + SpaceOut(t[1..])
  }

  function ValueOf(raw: Text): Decoded {
    Decode(SpaceOut(Normalise(raw)))
  }

  predicate IsWritten(w: Written) {
    && w.space != [] && AreSpaces(w.space) && AreSpaces(w.before) && AreSpaces(w.after)
    && IsName(w.name)
    && (w.quote == DOUBLE || w.quote == SINGLE)
    && w.quote !in w.raw && LESS !in w.raw && |w.raw| <= MAX_VALUE
    && ValueOf(w.raw).Decoded?
  }

  predicate IsTag(tag: Tag) {
    && IsName(tag.name)
    && AreSpaces(tag.trailing)
    && |tag.written| <= MAX_ATTRIBUTES
    && (forall i :: 0 <= i < |tag.written| ==> IsWritten(tag.written[i]))
    && (forall i, j :: 0 <= i < j < |tag.written| ==> tag.written[i].name != tag.written[j].name)
  }

  function AttributeOf(w: Written): Attribute
    requires IsWritten(w)
  {
    Attribute(w.name, ValueOf(w.raw).text)
  }

  function AttributesOf(written: seq<Written>): (r: seq<Attribute>)
    requires forall i :: 0 <= i < |written| ==> IsWritten(written[i])
    ensures |r| == |written|
    ensures forall i :: 0 <= i < |r| ==> r[i] == AttributeOf(written[i])
  {
    if written == [] then []
    else [AttributeOf(written[0])] + AttributesOf(written[1..])
  }

  predicate HasName(written: seq<Written>, name: Text) {
    exists i :: 0 <= i < |written| && written[i].name == name
  }

  method SkipSpaces(source: Text, from: nat) returns (to: nat)
    requires from <= |source|
    ensures SpacesEnd(source, from, to)
  {
    to := from;
    while to < |source| && IsSpace(source[to])
      invariant from <= to <= |source| && forall i :: from <= i < to ==> IsSpace(source[i])
    {
      to := to + 1;
    }
  }

  /** `from..to` is the longest run of white space from `from`. */
  predicate SpacesEnd(t: Text, from: nat, to: nat) {
    && from <= to <= |t|
    && (forall i :: from <= i < to ==> IsSpace(t[i]))
    && (to < |t| ==> !IsSpace(t[to]))
  }

  /** `from..to` is the longest run without white space and without the given unit. */
  predicate NameEnds(t: Text, from: nat, stop: CodeUnit, to: nat) {
    && from <= to <= |t|
    && (forall i :: from <= i < to ==> !IsSpace(t[i]) && t[i] != stop)
    && (to < |t| ==> IsSpace(t[to]) || t[to] == stop)
  }

  lemma {:induction false} EndsAgree(t: Text, from: nat, stop: CodeUnit, to: nat, to': nat)
    ensures SpacesEnd(t, from, to) && SpacesEnd(t, from, to') ==> to == to'
    ensures NameEnds(t, from, stop, to) && NameEnds(t, from, stop, to') ==> to == to'
  {
    if from <= to < to' <= |t| && SpacesEnd(t, from, to') {
      assert IsSpace(t[to]);
    }
    if from <= to' < to <= |t| && SpacesEnd(t, from, to) {
      assert IsSpace(t[to']);
    }
    if from <= to < to' <= |t| && NameEnds(t, from, stop, to') {
      assert !IsSpace(t[to]) && t[to] != stop;
    }
    if from <= to' < to <= |t| && NameEnds(t, from, stop, to) {
      assert !IsSpace(t[to']) && t[to'] != stop;
    }
  }

  /** Runs to white space, the given unit, or the end. */
  method SkipName(source: Text, from: nat, stop: CodeUnit) returns (to: nat)
    requires from <= |source|
    ensures NameEnds(source, from, stop, to)
  {
    to := from;
    while to < |source| && !IsSpace(source[to]) && source[to] != stop
      invariant from <= to <= |source| && forall i :: from <= i < to ==> !IsSpace(source[i]) && source[i] != stop
    {
      to := to + 1;
    }
  }

  datatype Reading = NotRead(why: Refusal) | Read(written: Written, next: nat)

  lemma {:induction false} SlicesJoin(t: Text, i: nat, j: nat, k: nat)
    requires i <= j <= k <= |t|
    ensures t[i..j] + t[j..k] == t[i..k]
  {
  }

  /** A quoted value: from the quotation mark at `from` to the next one, which `next` follows. */
  predicate IsValueAt(source: Text, from: nat, next: nat) {
    && from + 2 <= next <= |source| && source[next - 1] == source[from]
    && source[from] !in source[from + 1..next - 1] && LESS !in source[from + 1..next - 1]
    && next - from - 2 <= MAX_VALUE
  }

  lemma {:induction false} SliceHas(t: Text, from: nat, to: nat)
    requires from <= to <= |t|
    ensures forall i :: from <= i < to ==> t[i] in t[from..to]
  {
    assert forall i :: from <= i < to ==> t[from..to][i - from] == t[i];
  }

  lemma {:induction false} NoMarkBefore(source: Text, from: nat, cursor: nat, next: nat)
    requires from < cursor <= |source| && source[from] !in source[from + 1..cursor] && IsValueAt(source, from, next)
    ensures cursor < next && (cursor < |source| && source[cursor] == source[from] ==> next == cursor + 1)
  {
    SliceHas(source, from + 1, cursor);
    SliceHas(source, from + 1, next - 1);
  }

  /** The quoted value that starts at `from`. */
  method ReadValue(source: Text, from: nat, ghost guess: nat) returns (why: Refusal, next: nat)
    requires from < |source| && (source[from] == DOUBLE || source[from] == SINGLE)
    ensures next == 0 || IsValueAt(source, from, next)
    ensures IsValueAt(source, from, guess) ==> next == guess
  {
    why, next := Invalid, 0;
    var quote, cursor := source[from], from + 1;
    while cursor < |source| && source[cursor] != quote
      invariant from < cursor <= |source| && quote !in source[from + 1..cursor]
    {
      if IsValueAt(source, from, guess) {
        NoMarkBefore(source, from, cursor, guess);
      }
      if cursor - from - 1 > MAX_VALUE {
        return ResourceLimit, 0;
      }
      assert source[from + 1..cursor + 1] == source[from + 1..cursor] + [source[cursor]];
      cursor := cursor + 1;
    }
    if IsValueAt(source, from, guess) {
      NoMarkBefore(source, from, cursor, guess);
    }
    if cursor == |source| {
      return;
    }
    if cursor - from - 1 > MAX_VALUE {
      return ResourceLimit, 0;
    }
    if LESS in source[from + 1..cursor] {
      return;
    }
    next := cursor + 1;
  }

  /** The attribute with the white space before it is what stands in `from..next`. */
  predicate IsAttributeAt(source: Text, from: nat, w: Written, next: nat) {
    from < next <= |source| && IsWritten(w) && source[from..next] == Write(w)
  }

  /** The offsets at which the parts of an attribute end. */
  datatype Parts = Parts(at: nat, nameEnd: nat, equals: nat, open: nat)

  function PartsOf(from: nat, w: Written): Parts {
    var at := from + |w.space|;
    var nameEnd := at + |w.name|;
    var equals := nameEnd + |w.before|;
    Parts(at, nameEnd, equals, equals + 1 + |w.after|)
  }

  predicate HasParts(source: Text, from: nat, p: Parts, next: nat, w: Written) {
    && from <= p.at <= p.nameEnd <= p.equals < p.open < next - 1 < |source|
    && w.space == source[from..p.at] && w.name == source[p.at..p.nameEnd] && w.before == source[p.nameEnd..p.equals]
    && source[p.equals] == EQUALS && w.after == source[p.equals + 1..p.open]
    && source[p.open] == w.quote == source[next - 1] && w.raw == source[p.open + 1..next - 1]
  }

  lemma {:induction false} SplitSlice(t: Text, from: nat, to: nat, x: Text, y: Text)
    requires from <= to <= |t| && t[from..to] == x + y
    ensures from + |x| <= to && t[from..from + |x|] == x && t[from + |x|..to] == y
  {
    assert t[from..to][..|x|] == x && t[from..to][|x|..] == y;
  }

  lemma {:induction false} SplitLast(t: Text, from: nat, to: nat, x: Text, u: CodeUnit)
    requires from <= to <= |t| && t[from..to] == x + [u]
    ensures from + |x| == to - 1 && t[from..to - 1] == x && t[to - 1] == u
  {
    SplitSlice(t, from, to, x, [u]);
    assert t[to - 1..to][0] == t[to - 1];
  }

  lemma {:induction false} WrittenParts(source: Text, from: nat, w: Written, next: nat)
    requires from < next <= |source| && source[from..next] == Write(w)
    ensures HasParts(source, from, PartsOf(from, w), next, w)
  {
    var p := PartsOf(from, w);
    var name := w.space + w.name;
    var equals := name + w.before + [EQUALS];
    SplitLast(source, from, next, equals + w.after + [w.quote] + w.raw, w.quote);
    SplitSlice(source, from, next - 1, equals + w.after + [w.quote], w.raw);
    SplitLast(source, from, p.open + 1, equals + w.after, w.quote);
    SplitSlice(source, from, p.open, equals, w.after);
    SplitLast(source, from, p.equals + 1, name + w.before, EQUALS);
    SplitSlice(source, from, p.equals, name, w.before);
    SplitSlice(source, from, p.nameEnd, w.space, w.name);
  }

  lemma {:induction false} SliceSpaces(t: Text, from: nat, to: nat)
    requires from <= to <= |t| && AreSpaces(t[from..to]) && (to < |t| ==> !IsSpace(t[to]))
    ensures SpacesEnd(t, from, to)
  {
    assert forall i :: from <= i < to ==> t[from..to][i - from] == t[i];
  }

  lemma {:induction false} SliceName(t: Text, from: nat, to: nat, stop: CodeUnit)
    requires from <= to <= |t| && IsName(t[from..to]) && (to < |t| ==> IsSpace(t[to]) || t[to] == stop)
    requires stop == EQUALS || stop == SLASH
    ensures NameEnds(t, from, stop, to) && from < to && IsNameStart(t[from])
  {
    assert forall i :: from <= i < to ==> t[from..to][i - from] == t[i];
    assert forall i :: from <= i < to ==> IsNameUnit(t[i]);
  }

  /** The parts after the white space before an attribute, up to the mark that opens its value. */
  predicate ArePartsFrom(source: Text, p: Parts) {
    && NameEnds(source, p.at, EQUALS, p.nameEnd)
    && SpacesEnd(source, p.nameEnd, p.equals) && p.equals < |source| && source[p.equals] == EQUALS
    && SpacesEnd(source, p.equals + 1, p.open) && p.open < |source| && (source[p.open] == DOUBLE || source[p.open] == SINGLE)
  }

  /** The attribute stands here, and its parts end where the reader finds that they do. */
  predicate IsLocated(source: Text, from: nat, w: Written, next: nat) {
    var p := PartsOf(from, w);
    && HasParts(source, from, p, next, w)
    && SpacesEnd(source, from, p.at) && from < p.at && IsNameStart(source[p.at])
    && ArePartsFrom(source, p) && IsValueAt(source, p.open, next)
  }

  lemma {:induction false} AttributeIsLocated(source: Text, from: nat, w: Written, next: nat)
    requires IsAttributeAt(source, from, w, next)
    ensures IsLocated(source, from, w, next)
  {
    var p := PartsOf(from, w);
    WrittenParts(source, from, w, next);
    if p.nameEnd < p.equals {
      assert source[p.nameEnd..p.equals][0] == source[p.nameEnd];
    }
    SliceName(source, p.at, p.nameEnd, EQUALS);
    SliceSpaces(source, from, p.at);
    SliceSpaces(source, p.nameEnd, p.equals);
    SliceSpaces(source, p.equals + 1, p.open);
  }

  /** The offsets of the parts of an attribute whose name starts at `at`. */
  method FindParts(source: Text, at: nat, ghost guess: Parts) returns (ok: bool, p: Parts)
    requires at <= |source|
    ensures ok ==> p.at == at && ArePartsFrom(source, p)
    ensures guess.at == at && ArePartsFrom(source, guess) ==> ok && p == guess
  {
    ok, p := false, Parts(at, 0, 0, 0);
    var nameEnd := SkipName(source, at, EQUALS);
    EndsAgree(source, at, EQUALS, nameEnd, guess.nameEnd);
    var equals := SkipSpaces(source, nameEnd);
    EndsAgree(source, nameEnd, EQUALS, equals, guess.equals);
    if equals == |source| || source[equals] != EQUALS {
      return;
    }
    var open := SkipSpaces(source, equals + 1);
    EndsAgree(source, equals + 1, EQUALS, open, guess.open);
    if open == |source| || (source[open] != DOUBLE && source[open] != SINGLE) {
      return;
    }
    ok, p := true, Parts(at, nameEnd, equals, open);
  }

  /** One attribute; `from..at` is the white space before it. */
  method ReadAttribute(source: Text, from: nat, at: nat, earlier: seq<Written>, ghost guess: Written, ghost end: nat) returns (r: Reading)
    requires from < at < |source| && SpacesEnd(source, from, at)
    ensures r.Read? ==> at < r.next && IsAttributeAt(source, from, r.written, r.next) && !HasName(earlier, r.written.name)
    ensures IsAttributeAt(source, from, guess, end) && !HasName(earlier, guess.name) ==> r == Read(guess, end)
  {
    if IsAttributeAt(source, from, guess, end) {
      AttributeIsLocated(source, from, guess, end);
    }
    r := ReadLocated(source, from, at, earlier, guess, end);
  }

  /** An attribute that stands here is made of the parts the reader finds, and passes the reader's checks. */
  lemma {:induction false} LocatedIsRead(source: Text, from: nat, w: Written, next: nat)
    requires IsWritten(w) && IsLocated(source, from, w, next)
    ensures var p := PartsOf(from, w);
      && from < p.at <= p.nameEnd <= p.equals < p.open < next - 1 < |source|
      && SpacesEnd(source, from, p.at) && ArePartsFrom(source, p) && IsValueAt(source, p.open, next)
      && IsName(source[p.at..p.nameEnd]) && ValueOf(source[p.open + 1..next - 1]).Decoded?
      && w == Written(source[from..p.at], source[p.at..p.nameEnd], source[p.nameEnd..p.equals], source[p.equals + 1..p.open], source[p.open], source[p.open + 1..next - 1])
  {
    hide SpacesEnd, ArePartsFrom, IsValueAt, IsName, ValueOf, IsNameStart;
  }

  lemma {:induction false} PartsAreInside(source: Text, p: Parts)
    requires ArePartsFrom(source, p)
    ensures p.at <= p.nameEnd <= p.equals < p.open < |source| && (source[p.open] == DOUBLE || source[p.open] == SINGLE)
  {
  }

  lemma {:induction false} ValueIsInside(source: Text, open: nat, next: nat)
    requires open < |source| && IsValueAt(source, open, next)
    ensures open < next - 1 < |source|
  {
  }

  method ReadLocated(source: Text, from: nat, at: nat, earlier: seq<Written>, ghost guess: Written, ghost end: nat) returns (r: Reading)
    requires from < at < |source| && SpacesEnd(source, from, at)
    ensures r.Read? ==> at < r.next && IsAttributeAt(source, from, r.written, r.next) && !HasName(earlier, r.written.name)
    ensures IsWritten(guess) && IsLocated(source, from, guess, end) && !HasName(earlier, guess.name) ==> r == Read(guess, end)
  {
    hide IsWritten, IsLocated, SpacesEnd, ArePartsFrom, IsValueAt, IsName, ValueOf, IsAttributeAt, PartsOf, HasName;
    if IsWritten(guess) && IsLocated(source, from, guess, end) {
      LocatedIsRead(source, from, guess, end);
      EndsAgree(source, from, EQUALS, at, PartsOf(from, guess).at);
    }
    var ok, parts := FindParts(source, at, PartsOf(from, guess));
    if !ok {
      return NotRead(Invalid);
    }
    PartsAreInside(source, parts);
    var name := source[at..parts.nameEnd];
    if !IsName(name) || HasName(earlier, name) {
      return NotRead(Invalid);
    }
    var why, next := ReadValue(source, parts.open, end);
    if next == 0 {
      return NotRead(why);
    }
    ValueIsInside(source, parts.open, next);
    var raw := source[parts.open + 1..next - 1];
    var value := ValueOf(raw);
    if value.Refused? {
      return NotRead(value.why);
    }
    var written := Written(source[from..at], name, source[parts.nameEnd..parts.equals], source[parts.equals + 1..parts.open], source[parts.open], raw);
    ReadsBack(source, from, parts, next, written);
    r := Read(written, next);
  }

  lemma {:induction false} ReadsBack(source: Text, from: nat, p: Parts, next: nat, w: Written)
    requires from < p.at && SpacesEnd(source, from, p.at) && ArePartsFrom(source, p) && IsValueAt(source, p.open, next)
    requires w == Written(source[from..p.at], source[p.at..p.nameEnd], source[p.nameEnd..p.equals], source[p.equals + 1..p.open], source[p.open], source[p.open + 1..next - 1])
    requires IsName(w.name) && ValueOf(w.raw).Decoded?
    ensures IsAttributeAt(source, from, w, next)
  {
    WritesSource(source, from, p.at, p.nameEnd, p.equals, p.open, next, w);
    RunsAreSpaces(source, from, p.at);
    RunsAreSpaces(source, p.nameEnd, p.equals);
    RunsAreSpaces(source, p.equals + 1, p.open);
  }

  lemma {:induction false} RunsAreSpaces(t: Text, from: nat, to: nat)
    requires SpacesEnd(t, from, to)
    ensures AreSpaces(t[from..to])
  {
  }

  lemma {:induction false} WritesSource(source: Text, from: nat, at: nat, nameEnd: nat, equals: nat, open: nat, next: nat, w: Written)
    requires from <= at <= nameEnd <= equals < open < next - 1 < |source|
    requires source[equals] == EQUALS && source[next - 1] == source[open]
    requires w == Written(source[from..at], source[at..nameEnd], source[nameEnd..equals], source[equals + 1..open], source[open], source[open + 1..next - 1])
    ensures Write(w) == source[from..next]
  {
    SlicesJoin(source, from, at, nameEnd);
    SlicesJoin(source, from, nameEnd, equals);
    assert source[from..equals] + [EQUALS] == source[from..equals + 1];
    SlicesJoin(source, from, equals + 1, open);
    assert source[from..open] + [source[open]] == source[from..open + 1];
    SlicesJoin(source, from, open + 1, next - 1);
    assert source[from..next - 1] + [source[next - 1]] == source[from..next];
  }

  datatype Parsed = NotParsed(why: Refusal) | Parsed(tag: Tag)

  predicate IsReading(source: Text, tag: Tag) {
    IsTag(tag) && WriteTag(tag) == source
  }

  lemma {:induction false} WriteAllConcat(a: seq<Written>, b: seq<Written>)
    ensures WriteAll(a + b) == WriteAll(a) + WriteAll(b)
    decreases |b|
  {
    if b == [] {
      assert a + b == a;
    } else {
      var front, last := b[..|b| - 1], b[|b| - 1];
      WriteAllConcat(a, front);
      WriteAllEnds(a + b, a + front, last);
      Associate(WriteAll(a), WriteAll(front), Write(last));
    }
  }

  lemma {:induction false} WriteAllEnds(written: seq<Written>, front: seq<Written>, last: Written)
    requires written == front + [last]
    ensures WriteAll(written) == WriteAll(front) + Write(last)
  {
    assert written[..|front|] == front;
  }

  lemma {:induction false} Associate(a: Text, b: Text, c: Text)
    ensures a + (b + c) == (a + b) + c
  {
  }

  lemma {:induction false} WriteOne(w: Written)
    ensures WriteAll([w]) == Write(w)
  {
    assert [w][..0] == [];
  }

  lemma {:induction false} RestIsAhead(source: Text, tag: Tag, k: nat, cursor: nat)
    requires WriteTag(tag) == source && k <= |tag.written| && cursor <= |source|
    requires source[..cursor] == tag.name + WriteAll(tag.written[..k])
    ensures source[cursor..] == WriteAll(tag.written[k..]) + tag.trailing + Slash(tag.selfClosing)
  {
    var front, back := tag.written[..k], tag.written[k..];
    assert tag.written == front + back;
    WriteAllConcat(front, back);
    TailIs(source, tag.name, WriteAll(front), WriteAll(back), tag.trailing, Slash(tag.selfClosing));
  }

  lemma {:induction false} HeadIsWritten(written: seq<Written>)
    requires written != []
    ensures WriteAll(written) == Write(written[0]) + WriteAll(written[1..])
  {
    assert written == [written[0]] + written[1..];
    WriteAllConcat([written[0]], written[1..]);
    WriteOne(written[0]);
  }

  lemma {:induction false} TrailingIsAhead(source: Text, tag: Tag, cursor: nat)
    requires WriteTag(tag) == source && cursor <= |source| && source[..cursor] == tag.name + WriteAll(tag.written)
    ensures source[cursor..] == tag.trailing + Slash(tag.selfClosing)
  {
  }

  lemma {:induction false} AttributeIsAhead(source: Text, tag: Tag, k: nat, cursor: nat)
    requires WriteTag(tag) == source && k < |tag.written| && IsWritten(tag.written[k]) && cursor <= |source|
    requires source[..cursor] == tag.name + WriteAll(tag.written[..k])
    ensures IsAttributeAt(source, cursor, tag.written[k], cursor + |Write(tag.written[k])|)
  {
    RestIsAhead(source, tag, k, cursor);
    HeadIsWritten(tag.written[k..]);
    AttributeStands(source, cursor, tag.written[k], WriteAll(tag.written[k..][1..]), tag.trailing, Slash(tag.selfClosing));
  }

  /** After the first `k` attributes of a tag its next one stands, or what trails them. */
  lemma {:induction false} Ahead(source: Text, tag: Tag, k: nat, cursor: nat)
    requires IsReading(source, tag) && k <= |tag.written| && cursor <= |source|
    requires source[..cursor] == tag.name + WriteAll(tag.written[..k])
    ensures k < |tag.written| ==> IsAttributeAt(source, cursor, tag.written[k], cursor + |Write(tag.written[k])|)
    ensures k == |tag.written| ==> source[cursor..] == tag.trailing + Slash(tag.selfClosing)
  {
    if k < |tag.written| {
      AttributeIsAhead(source, tag, k, cursor);
    } else {
      assert tag.written[..k] == tag.written;
      TrailingIsAhead(source, tag, cursor);
    }
  }

  lemma {:induction false} TailIs(source: Text, name: Text, front: Text, back: Text, trailing: Text, slash: Text)
    requires source == name + (front + back) + trailing + slash
    ensures source[|name + front|..] == back + trailing + slash
  {
  }

  lemma {:induction false} StartsWithPart(source: Text, cursor: nat, part: Text, more: Text, trailing: Text, slash: Text)
    requires cursor <= |source| && source[cursor..] == part + more + trailing + slash
    ensures cursor + |part| <= |source| && source[cursor..cursor + |part|] == part
  {
    assert source[cursor..][..|part|] == part;
  }

  lemma {:induction false} AttributeStands(source: Text, cursor: nat, w: Written, more: Text, trailing: Text, slash: Text)
    requires IsWritten(w) && cursor <= |source| && source[cursor..] == Write(w) + more + trailing + slash
    ensures IsAttributeAt(source, cursor, w, cursor + |Write(w)|)
  {
    StartsWithPart(source, cursor, Write(w), more, trailing, slash);
  }

  lemma {:induction false} AttributeStarts(source: Text, from: nat, w: Written, next: nat)
    requires IsAttributeAt(source, from, w, next)
    ensures var at := PartsOf(from, w).at; SpacesEnd(source, from, at) && from < at < |source| && source[at] != SLASH
  {
    hide IsAttributeAt, Write, IsValueAt, HasParts, NameEnds;
    AttributeIsLocated(source, from, w, next);
  }

  lemma {:induction false} TrailingEnds(source: Text, tag: Tag, cursor: nat)
    requires IsReading(source, tag) && cursor <= |source| && source[cursor..] == tag.trailing + Slash(tag.selfClosing)
    ensures var end := cursor + |tag.trailing|;
      && SpacesEnd(source, cursor, end) && source[cursor..end] == tag.trailing && source[end..] == Slash(tag.selfClosing)
  {
    hide WriteTag, IsWritten, IsName, AreSpaces, SpacesEnd;
    var end := cursor + |tag.trailing|;
    assert source[cursor..end] == tag.trailing;
    assert source[end..] == Slash(tag.selfClosing);
    if end < |source| {
      assert source[end] == source[end..][0] == SLASH;
    }
    SliceSpaces(source, cursor, end);
  }

  /** What the first unit that is not white space says about where in the tag the reader is. */
  lemma {:induction false} TagAhead(source: Text, tag: Tag, k: nat, cursor: nat, at: nat)
    requires IsReading(source, tag) && k <= |tag.written| && cursor <= |source|
    requires source[..cursor] == tag.name + WriteAll(tag.written[..k]) && SpacesEnd(source, cursor, at)
    ensures k < |tag.written| ==> cursor < at < |source| && source[at] != SLASH
    ensures k == |tag.written| ==> source[cursor..at] == tag.trailing && source[at..] == Slash(tag.selfClosing)
  {
    hide IsReading, WriteAll, Write, SpacesEnd, IsAttributeAt;
    Ahead(source, tag, k, cursor);
    if k < |tag.written| {
      AttributeStarts(source, cursor, tag.written[k], cursor + |Write(tag.written[k])|);
      EndsAgree(source, cursor, SLASH, at, PartsOf(cursor, tag.written[k]).at);
    } else {
      TrailingEnds(source, tag, cursor);
      EndsAgree(source, cursor, SLASH, at, cursor + |tag.trailing|);
    }
  }

  /** The name of a tag ends where the reader finds that it does. */
  lemma {:induction false} NameAhead(source: Text, tag: Tag)
    requires IsReading(source, tag)
    ensures |tag.name| <= |source| && source[..|tag.name|] == tag.name && NameEnds(source, 0, SLASH, |tag.name|)
  {
    var end := |tag.name|;
    assert source[..end] == tag.name;
    assert source[..end] == tag.name + WriteAll(tag.written[..0]);
    Ahead(source, tag, 0, end);
    if |tag.written| > 0 {
      AttributeIsLocated(source, end, tag.written[0], end + |Write(tag.written[0])|);
    } else if end < |source| {
      assert source[end..][0] == source[end];
    }
    SliceName(source, 0, end, SLASH);
  }

  /** The reader is past the name and the given attributes, and so is every other reading. */
  ghost predicate InTag(source: Text, name: Text, written: seq<Written>, cursor: nat, guess: Tag) {
    && cursor <= |source|
    && IsTag(Tag(name, written, [], false))
    && source[..cursor] == name + WriteAll(written)
    && (IsReading(source, guess) ==> guess.name == name && written <= guess.written)
  }

  datatype Part = Refuse(why: Refusal) | Ended(tag: Tag) | Another(written: Written, next: nat)

  lemma {:induction false} ReadingEnds(source: Text, name: Text, written: seq<Written>, cursor: nat, at: nat, closed: bool)
    requires IsTag(Tag(name, written, [], false)) && SpacesEnd(source, cursor, at)
    requires WriteTag(Tag(name, written, source[cursor..at], closed)) == source
    ensures IsReading(source, Tag(name, written, source[cursor..at], closed))
  {
    hide WriteTag, IsWritten, IsName;
  }

  /** Where the tag ends, the reading so far is the only one. */
  lemma {:induction false} OnlyReading(source: Text, tag: Tag, cursor: nat, at: nat, closed: bool)
    requires IsReading(source, tag) && cursor <= |source|
    requires source[..cursor] == tag.name + WriteAll(tag.written) && SpacesEnd(source, cursor, at) && source[at..] == Slash(closed)
    ensures tag == Tag(tag.name, tag.written, source[cursor..at], closed)
  {
    hide IsReading, WriteAll, SpacesEnd;
    assert tag.written[..|tag.written|] == tag.written;
    TagAhead(source, tag, |tag.written|, cursor, at);
  }

  /** A slash or the end of the source ends the tag. */
  lemma {:induction false} TagEndsHere(source: Text, name: Text, written: seq<Written>, cursor: nat, at: nat, guess: Tag)
    requires InTag(source, name, written, cursor, guess) && SpacesEnd(source, cursor, at) && IsReading(source, guess)
    requires at == |source| || source[at] == SLASH
    ensures guess.written == written && at == |source| - |Slash(at < |source|)| && source[at..] == Slash(at < |source|)
  {
    hide IsReading, WriteAll, IsTag;
    assert guess.written[..|written|] == written;
    TagAhead(source, guess, |written|, cursor, at);
  }

  /** The end of the tag: what was read is the reading of the source, and no other one is. */
  lemma {:induction false} EndsReading(source: Text, name: Text, written: seq<Written>, cursor: nat, at: nat, closed: bool, guess: Tag)
    requires InTag(source, name, written, cursor, guess) && SpacesEnd(source, cursor, at) && source[at..] == Slash(closed)
    ensures IsReading(source, Tag(name, written, source[cursor..at], closed))
    ensures IsReading(source, guess) ==> guess == Tag(name, written, source[cursor..at], closed)
  {
    hide IsReading, WriteAll, IsTag, WriteTag;
    if closed {
      assert source[at..][0] == SLASH;
      EndsClosed(source, name, written, cursor, at);
    } else {
      EndsPlain(source, name, written, cursor);
    }
    ReadingEnds(source, name, written, cursor, at, closed);
    if IsReading(source, guess) {
      TagEndsHere(source, name, written, cursor, at, guess);
      OnlyReading(source, guess, cursor, at, closed);
    }
  }

  lemma {:induction false} NextStands(source: Text, name: Text, written: seq<Written>, cursor: nat, at: nat, guess: Tag)
    requires InTag(source, name, written, cursor, guess) && SpacesEnd(source, cursor, at) && IsReading(source, guess)
    requires at < |source| && source[at] != SLASH
    ensures cursor < at && |written| < |guess.written|
    ensures IsAttributeAt(source, cursor, guess.written[|written|], cursor + |Write(guess.written[|written|])|)
  {
    hide IsReading, IsAttributeAt, Write, WriteAll, IsTag;
    assert guess.written[..|written|] == written;
    TagAhead(source, guess, |written|, cursor, at);
    Ahead(source, guess, |written|, cursor);
  }

  /** The next attribute, or the end of the tag. */
  method ReadPart(source: Text, name: Text, written: seq<Written>, cursor: nat, ghost guess: Tag) returns (r: Part)
    requires InTag(source, name, written, cursor, guess) && cursor < |source|
    ensures r.Refuse? ==> !IsReading(source, guess)
    ensures r.Ended? ==> IsReading(source, r.tag) && (IsReading(source, guess) ==> guess == r.tag)
    ensures r.Another? ==> cursor < r.next && InTag(source, name, written + [r.written], r.next, guess)
  {
    hide IsReading, IsAttributeAt, Write, WriteAll, InTag;
    var at := SkipSpaces(source, cursor);
    if at == |source| {
      EndsReading(source, name, written, cursor, at, false, guess);
      return Ended(Tag(name, written, source[cursor..at], false));
    }
    if source[at] == SLASH {
      if at + 1 != |source| {
        if IsReading(source, guess) {
          TagEndsHere(source, name, written, cursor, at, guess);
        }
        return Refuse(Invalid);
      }
      EndsReading(source, name, written, cursor, at, true, guess);
      return Ended(Tag(name, written, source[cursor..at], true));
    }
    if IsReading(source, guess) {
      NextStands(source, name, written, cursor, at, guess);
    }
    if at == cursor {
      return Refuse(Invalid);
    }
    r := ReadAnother(source, name, written, cursor, at, guess);
  }

  lemma {:induction false} NextIsNew(tag: Tag, k: nat)
    requires IsTag(tag) && k < |tag.written|
    ensures !HasName(tag.written[..k], tag.written[k].name)
  {
  }

  method ReadAnother(source: Text, name: Text, written: seq<Written>, cursor: nat, at: nat, ghost guess: Tag) returns (r: Part)
    requires InTag(source, name, written, cursor, guess) && cursor < at < |source| && SpacesEnd(source, cursor, at)
    requires IsReading(source, guess) ==> |written| < |guess.written|
    requires IsReading(source, guess) ==> IsAttributeAt(source, cursor, guess.written[|written|], cursor + |Write(guess.written[|written|])|)
    ensures r.Refuse? ==> !IsReading(source, guess)
    ensures !r.Ended?
    ensures r.Another? ==> cursor < r.next && InTag(source, name, written + [r.written], r.next, guess)
  {
    ghost var next := if |written| < |guess.written| then guess.written[|written|] else Written([], [], [], [], DOUBLE, []);
    if IsReading(source, guess) {
      assert guess.written[..|written|] == written;
      NextIsNew(guess, |written|);
    }
    var reading := ReadAttribute(source, cursor, at, written, next, cursor + |Write(next)|);
    if reading.NotRead? {
      return Refuse(reading.why);
    }
    if |written| + 1 > MAX_ATTRIBUTES {
      return Refuse(ResourceLimit);
    }
    OneMoreAttribute(source, name, written, cursor, reading.written, reading.next);
    LongerPrefix(written, reading.written, guess.written);
    r := Another(reading.written, reading.next);
  }

  lemma {:induction false} LongerPrefix<T>(a: seq<T>, x: T, b: seq<T>)
    ensures a <= b && |a| < |b| && b[|a|] == x ==> a + [x] <= b
  {
  }

  lemma {:induction false} EndsPlain(source: Text, name: Text, written: seq<Written>, cursor: nat)
    requires cursor <= |source| && source[..cursor] == name + WriteAll(written)
    ensures WriteTag(Tag(name, written, source[cursor..|source|], false)) == source
  {
  }

  lemma {:induction false} EndsClosed(source: Text, name: Text, written: seq<Written>, cursor: nat, at: nat)
    requires cursor <= at && at + 1 == |source| && source[at] == SLASH && source[..cursor] == name + WriteAll(written)
    ensures WriteTag(Tag(name, written, source[cursor..at], true)) == source
  {
    assert source == source[..cursor] + source[cursor..at] + [SLASH];
  }

  lemma {:induction false} OneMoreAttribute(source: Text, name: Text, written: seq<Written>, cursor: nat, w: Written, next: nat)
    requires cursor <= |source| && source[..cursor] == name + WriteAll(written)
    requires IsTag(Tag(name, written, [], false)) && |written| < MAX_ATTRIBUTES
    requires IsAttributeAt(source, cursor, w, next) && !HasName(written, w.name)
    ensures source[..next] == name + WriteAll(written + [w]) && IsTag(Tag(name, written + [w], [], false))
  {
    hide IsWritten, Write, IsName;
    assert (written + [w])[..|written|] == written;
    assert source[..next] == source[..cursor] + source[cursor..next];
  }

  /** parseStartTag: reads exactly the sources that are the writing of a tag. */
  method ParseStartTag(source: Text, ghost guess: Tag) returns (r: Parsed)
    ensures r.Parsed? ==> IsReading(source, r.tag)
    ensures IsReading(source, guess) ==> r == Parsed(guess)
  {
    var nameEnd := SkipName(source, 0, SLASH);
    var name := source[..nameEnd];
    if IsReading(source, guess) {
      NameAhead(source, guess);
      EndsAgree(source, 0, SLASH, nameEnd, |guess.name|);
    }
    if !IsName(name) {
      return NotParsed(Invalid);
    }
    var written, cursor := [], nameEnd;
    while cursor < |source|
      invariant InTag(source, name, written, cursor, guess)
      decreases |source| - cursor
    {
      var part := ReadPart(source, name, written, cursor, guess);
      match part
      case Refuse(why) =>
        return NotParsed(why);
      case Ended(tag) =>
        return Parsed(tag);
      case Another(w, next) =>
        written, cursor := written + [w], next;
    }
    EndsReading(source, name, written, cursor, cursor, false, guess);
    r := Parsed(Tag(name, written, [], false));
  }

  // ----- end tags -----

  /** The source of an end tag: a slash, the name, and white space. */
  predicate IsEndTag(source: Text, name: Text) {
    IsName(name) && |source| >= 1 + |name| && source[0] == SLASH && source[1..1 + |name|] == name && AreSpaces(source[1 + |name|..])
  }

  datatype EndName = NoName | EndName(name: Text)

  lemma {:induction false} EndNameAhead(source: Text, name: Text)
    requires IsEndTag(source, name)
    ensures NameEnds(source, 1, SLASH, 1 + |name|) && SpacesEnd(source, 1 + |name|, |source|)
  {
    var end := 1 + |name|;
    if end < |source| {
      assert source[end..][0] == source[end];
    }
    SliceName(source, 1, end, SLASH);
    assert source[end..|source|] == source[end..];
    SliceSpaces(source, end, |source|);
  }

  method ParseEndTag(source: Text, ghost guess: Text) returns (r: EndName)
    requires source != [] && source[0] == SLASH
    ensures r.EndName? ==> IsEndTag(source, r.name)
    ensures IsEndTag(source, guess) ==> r == EndName(guess)
  {
    var nameEnd := SkipName(source, 1, SLASH);
    var name := source[1..nameEnd];
    var end := SkipSpaces(source, nameEnd);
    if IsEndTag(source, guess) {
      EndNameAhead(source, guess);
      EndsAgree(source, 1, SLASH, nameEnd, 1 + |guess|);
      EndsAgree(source, nameEnd, SLASH, end, |source|);
    }
    if !IsName(name) || end != |source| {
      return NoName;
    }
    r := EndName(name);
  }
}
