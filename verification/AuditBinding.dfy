/**
 document-audit-binding.ts: the byte encoding behind the SHA-256 commitments, the
 source budget, the roster of audited units, and the size of a binding.

 A digest is a commitment only if equal encodings come from equal wording, so the
 main results are that framing is injective and that the checks accept exactly what
 their limits say. SHA-256 itself is not part of this model.
 */
module AuditBinding {
  import opened Texts
  import opened JsonText
  import opened Utf8

  // ----- exact text -----

  /** Text that can be committed: no NUL and no lone surrogate. */
  predicate IsExact(t: Text) {
    IsWellFormed(t) && forall i :: 0 <= i < |t| ==> t[i] != 0
  }

  /** assertExactText: true when nothing is thrown. */
  method AssertExactText(value: Text) returns (ok: bool)
    ensures ok <==> IsExact(value)
  {
    var index := 0;
    assert value[0..] == value;
    while index < |value|
      invariant 0 <= index <= |value|
      invariant IsExact(value) <==> IsExact(value[index..])
    {
      var rest := value[index..];
      var code := value[index];
      assert rest[0] == code && (|rest| > 1 ==> rest[1] == value[index + 1]);
      if code == 0 || IsLowSurrogate(code) {
        return false;
      }
      if IsHighSurrogate(code) {
        if !(index + 1 < |value| && IsLowSurrogate(value[index + 1])) {
          return false;
        }
        PairStep(rest);
        assert rest[2..] == value[index + 2..];
        index := index + 2;
      } else {
        UnitStep(rest);
        assert rest[1..] == value[index + 1..];
        index := index + 1;
      }
    }
    return true;
  }

  lemma {:induction false} PairStep(t: Text)
    requires |t| > 1 && IsHighSurrogate(t[0]) && IsLowSurrogate(t[1])
    ensures IsExact(t) <==> IsExact(t[2..])
  {
    assert forall i :: 2 <= i < |t| ==> t[i] == t[2..][i - 2];
    assert forall i :: 0 <= i < |t[2..]| ==> t[2..][i] == t[i + 2];
  }

  lemma {:induction false} UnitStep(t: Text)
    requires |t| > 0 && t[0] != 0 && !IsHighSurrogate(t[0]) && !IsLowSurrogate(t[0])
    ensures IsExact(t) <==> IsExact(t[1..])
  {
    assert forall i :: 1 <= i < |t| ==> t[i] == t[1..][i - 1];
    assert forall i :: 0 <= i < |t[1..]| ==> t[1..][i] == t[i + 1];
  }

  // ----- frames -----

  const COLON_BYTE: Byte := 58

  /** L(s): the decimal byte length, a colon, the bytes. */
  function Frame(t: Text): Bytes {
    Encode(NatText(ByteLength(t))) + ([COLON_BYTE] + Encode(t))
  }

  function Frames(values: seq<Text>): Bytes {
    if values == [] then [] else Frame(values[0]) + Frames(values[1..])
  }

  /** What framedBytes returns. */
  function Framed(domain: Text, count: nat, values: seq<Text>): Bytes {
    Frames([domain, NatText(count)] + values)
  }

  /** The bytes are one frame of the text: as many bytes as the decimal number before the colon says, and they write the text. */
  ghost predicate IsFrame(b: Bytes, t: Text) {
    exists k: nat :: k < |b| && b[k] == 58 && IsNumeral(b[..k], |b| - k - 1) && WritesText(b[k + 1..], t)
  }

  /** Decimal, without leading zeros. */
  predicate IsNumeral(b: Bytes, n: nat) {
    b != [] && b[|b| - 1] as int == 48 + n % 10 && if n < 10 then |b| == 1 else IsNumeral(b[..|b| - 1], n / 10)
  }

  /** The bytes are one frame after the other. */
  ghost predicate AreFrames(b: Bytes, texts: seq<Text>)
    decreases |texts|
  {
    if texts == [] then b == []
    else exists k: nat :: k <= |b| && IsFrame(b[..k], texts[0]) && AreFrames(b[k..], texts[1..])
  }

  lemma {:induction false} PlainAppend(t: Text, u: CodeUnit)
    requires forall i :: 0 <= i < |t| ==> t[i] < 0x80
    requires u < 0x80
    ensures Encode(t + [u]) == Encode(t) + [u as int as Byte]
  {
    PlainBytes(t);
    PlainBytes(t + [u]);
  }

  lemma {:induction false} NumeralIsWritten(n: nat)
    ensures IsNumeral(Encode(NatText(n)), n)
  {
    if n < 10 {
      PlainBytes(NatText(n));
    } else {
      NumeralIsWritten(n / 10);
      PlainAppend(NatText(n / 10), (48 + n % 10) as CodeUnit);
      var front := Encode(NatText(n / 10));
      assert (front + [(48 + n % 10) as Byte])[..|front|] == front;
    }
  }

  lemma {:induction false} FrameIsFrame(t: Text)
    ensures IsFrame(Frame(t), t)
  {
    hide IsNumeral, WritesText;
    var digits := Encode(NatText(ByteLength(t)));
    var b := Frame(t);
    NumeralIsWritten(ByteLength(t));
    EncodeWrites(t);
    assert b[..|digits|] == digits && b[|digits|] == 58 && b[|digits| + 1..] == Encode(t);
  }

  lemma {:induction false} FramesAreFrames(texts: seq<Text>)
    ensures AreFrames(Frames(texts), texts)
  {
    hide IsFrame, Frame;
    if texts != [] {
      var k := |Frame(texts[0])|;
      FrameIsFrame(texts[0]);
      FramesAreFrames(texts[1..]);
      assert Frames(texts)[..k] == Frame(texts[0]) && Frames(texts)[k..] == Frames(texts[1..]);
    }
  }

  /** The committed bytes are the frames of the domain, of the decimal count, and of every value in order. */
  lemma {:induction false} FramedAreFrames(domain: Text, count: nat, values: seq<Text>)
    ensures AreFrames(Framed(domain, count, values), [domain, NatText(count)] + values)
  {
    FramesAreFrames([domain, NatText(count)] + values);
  }

  predicate IsDigitByte(b: Byte) {
    48 <= b <= 57
  }

  lemma {:induction false} LengthBytes(n: nat)
    ensures |Encode(NatText(n))| > 0
    ensures forall i :: 0 <= i < |Encode(NatText(n))| ==> IsDigitByte(Encode(NatText(n))[i])
  {
    PlainBytes(NatText(n));
  }

  lemma {:induction false} DigitsAreExact(t: Text)
    requires AllDigits(t)
    ensures IsExact(t)
  {
    if t != [] {
      assert AllDigits(t[1..]);
      DigitsAreExact(t[1..]);
    }
  }

  /** A frame says where it ends. */
  lemma {:induction false} FrameIsDelimited(a: Text, x: Bytes, b: Text, y: Bytes)
    requires IsExact(a) && IsExact(b)
    requires Frame(a) + x == Frame(b) + y
    ensures a == b && x == y
  {
    var p, q := Encode(NatText(ByteLength(a))), Encode(NatText(ByteLength(b)));
    var u, v := [COLON_BYTE] + (Encode(a) + x), [COLON_BYTE] + (Encode(b) + y);
    assert Frame(a) + x == p + u && Frame(b) + y == q + v;
    LengthBytes(ByteLength(a));
    LengthBytes(ByteLength(b));
    SameSpan(IsDigitByte, p, u, q, v);
    DigitsAreExact(NatText(ByteLength(a)));
    DigitsAreExact(NatText(ByteLength(b)));
    EncodeIsInjective(NatText(ByteLength(a)), NatText(ByteLength(b)));
    NatTextIsInjective(ByteLength(a), ByteLength(b));
    CancelPrefix([COLON_BYTE], Encode(a) + x, Encode(b) + y);
    assert (Encode(a) + x)[..|Encode(a)|] == Encode(a) && (Encode(b) + y)[..|Encode(b)|] == Encode(b);
    EncodeIsInjective(a, b);
    CancelPrefix(Encode(a), x, y);
  }

  predicate AllExact(values: seq<Text>) {
    forall i :: 0 <= i < |values| ==> IsExact(values[i])
  }

  lemma {:induction false} FramesAreInjective(a: seq<Text>, b: seq<Text>)
    requires AllExact(a) && AllExact(b) && Frames(a) == Frames(b)
    ensures a == b
  {
    FramesAreEmpty(a);
    FramesAreEmpty(b);
    if a != [] && b != [] {
      FrameIsDelimited(a[0], Frames(a[1..]), b[0], Frames(b[1..]));
      assert AllExact(a[1..]) && AllExact(b[1..]);
      FramesAreInjective(a[1..], b[1..]);
      assert a == [a[0]] + a[1..] && b == [b[0]] + b[1..];
    }
  }

  lemma {:induction false} FramesAreEmpty(values: seq<Text>)
    ensures Frames(values) == [] <==> values == []
  {
    if values != [] {
      assert |Frame(values[0])| > 0;
    }
  }

  /** Equal commitments have equal domains, counts and values. */
  lemma {:induction false} FramedIsInjective(domain: Text, count: nat, values: seq<Text>, domain': Text, count': nat, values': seq<Text>)
    requires IsExact(domain) && AllExact(values) && IsExact(domain') && AllExact(values')
    requires Framed(domain, count, values) == Framed(domain', count', values')
    ensures domain == domain' && count == count' && values == values'
  {
    DigitsAreExact(NatText(count));
    DigitsAreExact(NatText(count'));
    var a, b := [domain, NatText(count)] + values, [domain', NatText(count')] + values';
    FramesAreInjective(a, b);
    assert a[0] == domain && b[0] == domain' && a[1] == NatText(count) && b[1] == NatText(count');
    assert a[2..] == values && b[2..] == values';
    NatTextIsInjective(count, count');
  }

  /** framedBytes; nothing when a value is not exact. */
  method FramedBytes(domain: Text, count: nat, values: seq<Text>) returns (ok: bool, output: array<Byte>)
    ensures ok <==> IsExact(domain) && AllExact(values)
    ensures ok ==> output[..] == Framed(domain, count, values)
  {
    var all := [domain, NatText(count)] + values;
    DigitsAreExact(NatText(count));
    var frames: seq<Bytes>;
    ok, frames := CollectFrames(all);
    assert AllExact(all) <==> IsExact(domain) && AllExact(values) by {
      assert all[0] == domain && all[1] == NatText(count) && all[2..] == values;
      assert forall k :: 0 <= k < |values| ==> values[k] == all[k + 2];
    }
    if !ok {
      output := new Byte[0];
      return;
    }
    output := CopyFrames(frames);
    FlattenedFrames(all);
  }

  method CollectFrames(values: seq<Text>) returns (ok: bool, frames: seq<Bytes>)
    ensures ok <==> AllExact(values)
    ensures ok ==> frames == FrameList(values)
  {
    hide IsExact, Frame;
    frames := [];
    var i := 0;
    while i < |values|
      invariant 0 <= i <= |values|
      invariant forall k :: 0 <= k < i ==> IsExact(values[k])
      invariant frames == FrameList(values[..i])
    {
      ok := AssertExactText(values[i]);
      if !ok {
        return;
      }
      assert values[..i + 1][..i] == values[..i];
      frames := frames + [Frame(values[i])];
      i := i + 1;
    }
    assert values[..i] == values;
    ok := true;
  }

  /** Measure the frames, then copy each one to its offset. */
  method CopyFrames(frames: seq<Bytes>) returns (output: array<Byte>)
    ensures output[..] == Flatten(frames)
  {
    var length := 0;
    var i := 0;
    while i < |frames|
      invariant 0 <= i <= |frames| && length == |Flatten(frames[..i])|
    {
      assert frames[..i + 1] == frames[..i] + [frames[i]];
      FlattenAppend(frames[..i], frames[i]);
      length := length + |frames[i]|;
      i := i + 1;
    }
    assert frames[..i] == frames;
    output := new Byte[length];
    var offset := 0;
    var k := 0;
    while k < |frames|
      invariant 0 <= k <= |frames| && offset == |Flatten(frames[..k])| <= output.Length
      invariant output[..offset] == Flatten(frames[..k])
    {
      assert frames[..k + 1] == frames[..k] + [frames[k]];
      FlattenAppend(frames[..k], frames[k]);
      FlattenSplit(frames, k + 1);
      CopyFrame(output, offset, frames[k]);
      offset := offset + |frames[k]|;
      k := k + 1;
    }
    assert frames[..k] == frames;
    assert output[..] == output[..offset];
  }

  /** `output.set(frame, offset)`. */
  method CopyFrame(output: array<Byte>, offset: nat, frame: Bytes)
    requires offset + |frame| <= output.Length
    modifies output
    ensures output[..offset] == old(output[..offset])
    ensures output[..offset + |frame|] == old(output[..offset]) + frame
    ensures output[offset + |frame|..] == old(output[offset + |frame|..])
  {
    forall j | 0 <= j < |frame| {
      output[offset + j] := frame[j];
    }
  }

  function FrameList(values: seq<Text>): seq<Bytes> {
    if values == [] then [] else FrameList(values[..|values| - 1]) + [Frame(values[|values| - 1])]
  }

  function Flatten(frames: seq<Bytes>): Bytes {
    if frames == [] then [] else Flatten(frames[..|frames| - 1]) + frames[|frames| - 1]
  }

  lemma {:induction false} FlattenAppend(frames: seq<Bytes>, last: Bytes)
    ensures Flatten(frames + [last]) == Flatten(frames) + last
  {
    assert (frames + [last])[..|frames|] == frames;
  }

  lemma {:induction false} FlattenSplit(frames: seq<Bytes>, n: nat)
    requires n <= |frames|
    ensures |Flatten(frames[..n])| <= |Flatten(frames)|
    decreases |frames| - n
  {
    if n < |frames| {
      assert frames[..n + 1] == frames[..n] + [frames[n]];
      FlattenAppend(frames[..n], frames[n]);
      FlattenSplit(frames, n + 1);
    } else {
      assert frames[..n] == frames;
    }
  }

  lemma {:induction false} FramesAppend(values: seq<Text>, last: Text)
    ensures Frames(values + [last]) == Frames(values) + Frame(last)
  {
    var all := values + [last];
    if values == [] {
      assert all == [last] && [last][1..] == [];
      assert Frames([last]) == Frame(last) + Frames([]);
    } else {
      assert all[0] == values[0] && all[1..] == values[1..] + [last];
      FramesAppend(values[1..], last);
    }
  }

  lemma {:induction false} FlattenedFrames(values: seq<Text>)
    ensures Flatten(FrameList(values)) == Frames(values)
  {
    if values != [] {
      var front, last := values[..|values| - 1], values[|values| - 1];
      FlattenedFrames(front);
      FlattenAppend(FrameList(front), Frame(last));
      FramesAppend(front, last);
      assert values == front + [last];
    }
  }

  // ----- targets -----

  datatype Target = Target(key: Text, title: Text, content: Text)

  function TargetValues(targets: seq<Target>): (r: seq<Text>)
    ensures |r| == 3 * |targets|
    ensures forall i :: 0 <= i < |targets| ==>
              r[3 * i] == targets[i].key && r[3 * i + 1] == targets[i].title && r[3 * i + 2] == targets[i].content
  {
    if targets == [] then []
    else
      var front := targets[..|targets| - 1];
      var last := targets[|targets| - 1];
      TargetValues(front) + [last.key, last.title, last.content]
  }

  predicate TargetsAreExact(targets: seq<Target>) {
    forall i :: 0 <= i < |targets| ==> IsExact(targets[i].key) && IsExact(targets[i].title) && IsExact(targets[i].content)
  }

  lemma {:induction false} TargetValuesAreExact(targets: seq<Target>)
    requires TargetsAreExact(targets)
    ensures AllExact(TargetValues(targets))
  {
    var values := TargetValues(targets);
    forall k | 0 <= k < |values| ensures IsExact(values[k]) {
      var i := k / 3;
      assert values[3 * i] == targets[i].key && values[3 * i + 1] == targets[i].title && values[3 * i + 2] == targets[i].content;
      assert k == 3 * i || k == 3 * i + 1 || k == 3 * i + 2;
    }
  }

  /** The bytes legacyAuditTargetSha256 commits to determine every key, label and content, in order. */
  lemma {:induction false} TargetCommitmentIsInjective(domain: Text, a: seq<Target>, b: seq<Target>)
    requires IsExact(domain) && TargetsAreExact(a) && TargetsAreExact(b)
    requires Framed(domain, |a|, TargetValues(a)) == Framed(domain, |b|, TargetValues(b))
    ensures a == b
  {
    TargetValuesAreExact(a);
    TargetValuesAreExact(b);
    FramedIsInjective(domain, |a|, TargetValues(a), domain, |b|, TargetValues(b));
    forall i | 0 <= i < |a| ensures a[i] == b[i] {
      assert TargetValues(a)[3 * i] == TargetValues(b)[3 * i];
      assert TargetValues(a)[3 * i + 1] == TargetValues(b)[3 * i + 1];
      assert TargetValues(a)[3 * i + 2] == TargetValues(b)[3 * i + 2];
    }
  }

  // ----- the source budget -----

  const MAX_SOURCE_BYTES: nat := 1_048_576

  function TotalBytes(sources: seq<Text>): nat {
    if sources == [] then 0 else TotalBytes(sources[..|sources| - 1]) + ByteLength(sources[|sources| - 1])
  }

  lemma {:induction false} TotalOfPrefix(sources: seq<Text>, n: nat)
    requires n <= |sources|
    ensures TotalBytes(sources[..n]) <= TotalBytes(sources)
    decreases |sources| - n
  {
    if n < |sources| {
      assert sources[..n + 1][..n] == sources[..n];
      TotalOfPrefix(sources, n + 1);
    } else {
      assert sources[..n] == sources;
    }
  }

  /**
   validateLegacyAuditSources: the running budget, with its early exit on UTF-16
   length, accepts exactly the exact five-tuples of at most 1,048,576 bytes in all.
   */
  method ValidateSources(sources: seq<Text>) returns (ok: bool)
    ensures ok <==> |sources| == 5 && AllExact(sources) && TotalBytes(sources) <= MAX_SOURCE_BYTES
  {
    if |sources| != 5 {
      return false;
    }
    var remainingBytes: int := MAX_SOURCE_BYTES;
    var i := 0;
    while i < 5
      invariant 0 <= i <= 5
      invariant AllExact(sources[..i])
      invariant remainingBytes == MAX_SOURCE_BYTES - TotalBytes(sources[..i]) >= 0
    {
      var value := sources[i];
      assert sources[..i + 1][..i] == sources[..i];
      EncodingIsNoShorter(value);
      TotalOfPrefix(sources, i + 1);
      if |value| > remainingBytes {
        return false;
      }
      var exact := AssertExactText(value);
      if !exact {
        return false;
      }
      remainingBytes := remainingBytes - ByteLength(value);
      if remainingBytes < 0 {
        return false;
      }
      assert sources[..i + 1] == sources[..i] + [value];
      i := i + 1;
    }
    assert sources[..5] == sources;
    return true;
  }
}
