/**
 document-audit-binding.ts, lines 209-335: the validator of an audit binding, the roster
 of its audited units, and the size of its serialisation.
 */
module AuditRoster {
  import opened Texts
  import opened JsonText
  import opened Utf8
  import opened AuditBinding
  import DocumentPipeline

  datatype UnitRow = UnitRow(id: Text, sectionKey: Text)

  /** identifier: trimmed, visible, exact text of at most 200 units. */
  predicate IsIdentifier(t: Text) {
    |t| <= 200 && IsExact(t) && IsTrimmed(t)
  }

  predicate AreSectionKeys(keys: seq<Text>) {
    && (forall i :: 0 <= i < |keys| ==> IsIdentifier(keys[i]))
    && NoRepeats(keys)
  }

  const HASH: CodeUnit := 35

  function UnitId(key: Text, n: nat): Text {
    key + [HASH] + NatText(n)
  }

  // ----- the accepted rosters -----

  /** key#1 to key#count. */
  function Rows(key: Text, count: nat): (r: seq<UnitRow>)
    ensures |r| == count
    ensures forall i :: 0 <= i < count ==> r[i] == UnitRow(UnitId(key, i + 1), key)
  {
    if count == 0 then [] else Rows(key, count - 1) + [UnitRow(UnitId(key, count), key)]
  }

  /** The rows of every section, in section order. */
  function Roster(keys: seq<Text>, counts: seq<nat>): seq<UnitRow>
    requires |keys| == |counts|
  {
    if keys == [] then []
    else Roster(keys[..|keys| - 1], counts[..|keys| - 1]) + Rows(keys[|keys| - 1], counts[|keys| - 1])
  }

  /** The rows form a roster, and every identifier is within the length limit. */
  ghost predicate IsRoster(keys: seq<Text>, rows: seq<UnitRow>) {
    && (exists counts: seq<nat> :: |counts| == |keys| && rows == Roster(keys, counts))
    && forall i :: 0 <= i < |rows| ==> IsIdentifier(rows[i].id)
  }

  // ----- the check, row by row -----

  function Position(keys: seq<Text>, key: Text): (i: nat)
    ensures i <= |keys| && (i < |keys| ==> keys[i] == key) && (i == |keys| <==> key !in keys)
  {
    if keys == [] then 0 else if keys[0] == key then 0 else 1 + Position(keys[1..], key)
  }

  function CountKey(rows: seq<UnitRow>, key: Text): nat {
    if rows == [] then 0
    else CountKey(rows[..|rows| - 1], key) + if rows[|rows| - 1].sectionKey == key then 1 else 0
  }

  /** The row continues the rows before it. */
  predicate Continues(keys: seq<Text>, rows: seq<UnitRow>, i: nat)
    requires i < |rows|
  {
    && rows[i].sectionKey in keys
    && (i > 0 ==> Position(keys, rows[i - 1].sectionKey) <= Position(keys, rows[i].sectionKey))
    && rows[i].id == UnitId(rows[i].sectionKey, CountKey(rows[..i], rows[i].sectionKey) + 1)
  }

  predicate AllContinue(keys: seq<Text>, rows: seq<UnitRow>) {
    forall i :: 0 <= i < |rows| ==> Continues(keys, rows, i)
  }

  predicate RowPasses(keys: seq<Text>, rows: seq<UnitRow>, i: nat)
    requires i < |rows|
  {
    Continues(keys, rows, i) && IsIdentifier(rows[i].id)
  }

  predicate PassesRowByRow(keys: seq<Text>, rows: seq<UnitRow>) {
    forall i :: 0 <= i < |rows| ==> RowPasses(keys, rows, i)
  }

  lemma {:induction false} PositionOf(keys: seq<Text>, p: nat)
    requires NoRepeats(keys)
    requires p < |keys|
    ensures Position(keys, keys[p]) == p
  {
    var q := Position(keys, keys[p]);
    assert keys[q] == keys[p];
  }

  lemma {:induction false} AppendRow(keys: seq<Text>, counts: seq<nat>, p: nat)
    requires |counts| == |keys| && p < |keys|
    requires forall j :: p < j < |counts| ==> counts[j] == 0
    ensures Roster(keys, counts[p := counts[p] + 1]) == Roster(keys, counts) + [UnitRow(UnitId(keys[p], counts[p] + 1), keys[p])]
  {
    var n := |keys| - 1;
    var more := counts[p := counts[p] + 1];
    if p == n {
      assert more[..n] == counts[..n];
    } else {
      assert more[..n] == counts[..n][p := counts[p] + 1];
      assert more[n] == counts[n] == 0;
      AppendRow(keys[..n], counts[..n], p);
      assert Roster(keys[..n], counts[..n]) + [] == Roster(keys[..n], counts[..n]);
    }
  }

  lemma {:induction false} CountInRows(key: Text, count: nat, other: Text)
    ensures CountKey(Rows(key, count), other) == if other == key then count else 0
  {
    if count > 0 {
      CountInRows(key, count - 1, other);
      assert Rows(key, count)[..count - 1] == Rows(key, count - 1);
    }
  }

  lemma {:induction false} CountConcat(a: seq<UnitRow>, b: seq<UnitRow>, key: Text)
    ensures CountKey(a + b, key) == CountKey(a, key) + CountKey(b, key)
  {
    if b == [] {
      assert a + b == a;
    } else {
      assert (a + b)[..|a + b| - 1] == a + b[..|b| - 1];
      CountConcat(a, b[..|b| - 1], key);
    }
  }

  lemma {:induction false} CountInRoster(keys: seq<Text>, counts: seq<nat>, key: Text)
    requires |counts| == |keys|
    requires NoRepeats(keys)
    ensures CountKey(Roster(keys, counts), key) == if key in keys then counts[Position(keys, key)] else 0
  {
    hide UnitId, Position;
    if keys != [] {
      var n := |keys| - 1;
      CountInRoster(keys[..n], counts[..n], key);
      CountInRows(keys[n], counts[n], key);
      CountConcat(Roster(keys[..n], counts[..n]), Rows(keys[n], counts[n]), key);
      if key in keys {
        var p := Position(keys, key);
        if p < n {
          assert keys[..n][p] == key;
          PositionOf(keys[..n], p);
        } else {
          assert forall i :: 0 <= i < n ==> keys[..n][i] == keys[i] != keys[n];
        }
      } else {
        assert keys[n] != key && key !in keys[..n];
      }
    }
  }

  /** Every row of a roster is in a section with a positive count. */
  lemma {:induction false} RosterRows(keys: seq<Text>, counts: seq<nat>, i: nat) returns (p: nat)
    requires |counts| == |keys| && i < |Roster(keys, counts)|
    ensures p < |keys| && counts[p] > 0 && Roster(keys, counts)[i].sectionKey == keys[p]
  {
    var n := |keys| - 1;
    var front := Roster(keys[..n], counts[..n]);
    if i < |front| {
      p := RosterRows(keys[..n], counts[..n], i);
    } else {
      p := n;
      assert Roster(keys, counts)[i] == Rows(keys[n], counts[n])[i - |front|];
    }
  }

  lemma {:induction false} FrontContinues(keys: seq<Text>, rows: seq<UnitRow>, n: nat)
    requires AllContinue(keys, rows) && n <= |rows|
    ensures AllContinue(keys, rows[..n])
  {
    var front := rows[..n];
    forall i | 0 <= i < n ensures Continues(keys, front, i) {
      assert Continues(keys, rows, i) && front[..i] == rows[..i];
    }
  }

  /** Rows that pass the check one by one are a roster. */
  lemma {:induction false} ContinuingIsRoster(keys: seq<Text>, rows: seq<UnitRow>) returns (counts: seq<nat>)
    requires NoRepeats(keys)
    requires AllContinue(keys, rows)
    ensures |counts| == |keys| && rows == Roster(keys, counts)
    ensures rows != [] ==> forall j :: Position(keys, rows[|rows| - 1].sectionKey) < j < |keys| ==> counts[j] == 0
    ensures rows == [] ==> forall j :: 0 <= j < |keys| ==> counts[j] == 0
  {
    hide Roster, CountKey, UnitId, NoRepeats;
    if rows == [] {
      counts := ZeroCounts(|keys|);
      EmptyRoster(keys);
    } else {
      var n := |rows| - 1;
      var front := rows[..n];
      FrontContinues(keys, rows, n);
      counts := ContinuingIsRoster(keys, front);
      var last := rows[n];
      assert Continues(keys, rows, n);
      var p := Position(keys, last.sectionKey);
      CountInRoster(keys, counts, last.sectionKey);
      AppendRow(keys, counts, p);
      counts := counts[p := counts[p] + 1];
      assert rows == front + [last];
    }
  }

  function ZeroCounts(n: nat): (r: seq<nat>)
    ensures |r| == n && forall i :: 0 <= i < n ==> r[i] == 0
  {
    if n == 0 then [] else ZeroCounts(n - 1) + [0]
  }

  lemma {:induction false} EmptyRoster(keys: seq<Text>)
    ensures Roster(keys, ZeroCounts(|keys|)) == []
  {
    if keys != [] {
      var n := |keys| - 1;
      assert ZeroCounts(|keys|)[..n] == ZeroCounts(n);
      EmptyRoster(keys[..n]);
    }
  }

  function Sum(counts: seq<nat>): nat {
    if counts == [] then 0 else Sum(counts[..|counts| - 1]) + counts[|counts| - 1]
  }

  lemma {:induction false} SumDecrease(counts: seq<nat>, p: nat)
    requires p < |counts| && counts[p] > 0
    ensures Sum(counts[p := counts[p] - 1]) == Sum(counts) - 1
  {
    var n := |counts| - 1;
    var less := counts[p := counts[p] - 1];
    if p < n {
      assert less[..n] == counts[..n][p := counts[p] - 1];
      SumDecrease(counts[..n], p);
    } else {
      assert less[..n] == counts[..n];
    }
  }

  /** The last section with rows, if there is one. */
  lemma {:induction false} LastUsed(counts: seq<nat>) returns (p: int)
    ensures -1 <= p < |counts|
    ensures p >= 0 ==> counts[p] > 0
    ensures forall j :: p < j < |counts| ==> counts[j] == 0
  {
    p := |counts| - 1;
    while p >= 0 && counts[p] == 0
      invariant -1 <= p < |counts|
      invariant forall j :: p < j < |counts| ==> counts[j] == 0
    {
      p := p - 1;
    }
  }

  /** A roster passes the check, row by row. */
  lemma {:induction false} RosterContinues(keys: seq<Text>, counts: seq<nat>)
    requires |counts| == |keys|
    requires NoRepeats(keys)
    ensures AllContinue(keys, Roster(keys, counts))
    decreases Sum(counts)
  {
    hide UnitId, CountKey, Position, Roster, NoRepeats;
    var p := LastUsed(counts);
    if p < 0 {
      assert counts == ZeroCounts(|keys|);
      EmptyRoster(keys);
    } else {
      var less := counts[p := counts[p] - 1];
      SumDecrease(counts, p);
      RosterContinues(keys, less);
      AppendRow(keys, less, p);
      assert less[p := less[p] + 1] == counts;
      var front := Roster(keys, less);
      CountInRoster(keys, less, keys[p]);
      PositionOf(keys, p);
      if front != [] {
        var q := RosterRows(keys, less, |front| - 1);
        PositionOf(keys, q);
        assert q <= p;
      }
      AppendContinues(keys, front, UnitRow(UnitId(keys[p], less[p] + 1), keys[p]));
    }
  }

  lemma {:induction false} AppendContinues(keys: seq<Text>, front: seq<UnitRow>, last: UnitRow)
    requires AllContinue(keys, front)
    requires last.sectionKey in keys && last.id == UnitId(last.sectionKey, CountKey(front, last.sectionKey) + 1)
    requires front != [] ==> Position(keys, front[|front| - 1].sectionKey) <= Position(keys, last.sectionKey)
    ensures AllContinue(keys, front + [last])
  {
    var rows := front + [last];
    forall i | 0 <= i < |rows| ensures Continues(keys, rows, i) {
      if i < |front| {
        assert Continues(keys, front, i) && front[..i] == rows[..i];
      } else {
        assert rows[..i] == front;
      }
    }
  }

  /** The row-by-row check characterises rosters. */
  lemma {:induction false} RosterCharacterisation(keys: seq<Text>, rows: seq<UnitRow>)
    requires AreSectionKeys(keys)
    ensures AllContinue(keys, rows) <==> exists counts: seq<nat> :: |counts| == |keys| && rows == Roster(keys, counts)
  {
    if AllContinue(keys, rows) {
      var counts := ContinuingIsRoster(keys, rows);
    }
    if exists counts: seq<nat> :: |counts| == |keys| && rows == Roster(keys, counts) {
      var counts: seq<nat> :| |counts| == |keys| && rows == Roster(keys, counts);
      RosterContinues(keys, counts);
    }
  }

  /** What the loop accepts are exactly the rosters. */
  lemma {:induction false} AcceptedAreRosters(keys: seq<Text>, rows: seq<UnitRow>)
    requires AreSectionKeys(keys)
    ensures PassesRowByRow(keys, rows) <==> IsRoster(keys, rows)
  {
    RosterCharacterisation(keys, rows);
    if PassesRowByRow(keys, rows) {
      forall i | 0 <= i < |rows| ensures Continues(keys, rows, i) && IsIdentifier(rows[i].id) {
        assert RowPasses(keys, rows, i);
      }
      assert AllContinue(keys, rows);
    }
    if IsRoster(keys, rows) {
      assert AllContinue(keys, rows);
      assert forall i :: 0 <= i < |rows| ==> Continues(keys, rows, i);
    }
  }

  /** The loop over `unitRows`, with its map of ordinals and the index of the previous section. */
  method ValidateUnits(keys: seq<Text>, rows: seq<UnitRow>) returns (ok: bool)
    requires AreSectionKeys(keys)
    ensures ok <==> IsRoster(keys, rows)
  {
    AcceptedAreRosters(keys, rows);
    ok := PassRows(keys, rows);
  }

  method PassRows(keys: seq<Text>, rows: seq<UnitRow>) returns (ok: bool)
    requires AreSectionKeys(keys)
    ensures ok <==> PassesRowByRow(keys, rows)
  {
    hide IsIdentifier, UnitId, Position, NoRepeats;
    var ordinal: map<Text, nat> := map[];
    var previousSection: int := -1;
    var i := 0;
    while i < |rows|
      invariant 0 <= i <= |rows|
      invariant forall k :: 0 <= k < i ==> RowPasses(keys, rows, k)
      invariant previousSection == if i == 0 then -1 else Position(keys, rows[i - 1].sectionKey)
      invariant forall key :: (if key in ordinal then ordinal[key] else 0) == CountKey(rows[..i], key)
    {
      var sectionKey := rows[i].sectionKey;
      var sectionIndex := Position(keys, sectionKey);
      var unitNumber := (if sectionKey in ordinal then ordinal[sectionKey] else 0) + 1;
      if sectionIndex == |keys| || sectionIndex < previousSection || !IsIdentifier(rows[i].id)
         || rows[i].id != UnitId(sectionKey, unitNumber)
      {
        assert !RowPasses(keys, rows, i);
        return false;
      }
      assert rows[..i + 1][..i] == rows[..i];
      previousSection := sectionIndex;
      ordinal := ordinal[sectionKey := unitNumber];
      i := i + 1;
    }
    return true;
  }

  // ----- identifiers are distinct -----

  lemma {:induction false} UnitIdIsInjective(key: Text, n: nat, key': Text, n': nat)
    requires UnitId(key, n) == UnitId(key', n')
    ensures key == key' && n == n'
  {
    var t, u := UnitId(key, n), UnitId(key', n');
    var d, d' := NatText(n), NatText(n');
    assert t[|key|] == HASH && u[|key'|] == HASH;
    assert forall i :: |key| < i < |t| ==> t[i] == d[i - |key| - 1];
    assert forall i :: |key'| < i < |u| ==> u[i] == d'[i - |key'| - 1];
    assert |key| == |key'|;
    assert t[..|key|] == key && u[..|key'|] == key';
    assert t[|key| + 1..] == d && u[|key'| + 1..] == d';
    NatTextIsInjective(n, n');
  }

  lemma {:induction false} EarlierCount(rows: seq<UnitRow>, i: nat, j: nat)
    requires i < j <= |rows|
    ensures CountKey(rows[..i], rows[i].sectionKey) < CountKey(rows[..j], rows[i].sectionKey)
  {
    var key := rows[i].sectionKey;
    if j == i + 1 {
      assert rows[..j][..i] == rows[..i];
    } else {
      EarlierCount(rows, i, j - 1);
      assert rows[..j][..j - 1] == rows[..j - 1];
    }
  }

  lemma {:induction false} UnitIdsDiffer(key: Text, n: nat, key': Text, n': nat)
    requires key != key' || n != n'
    ensures UnitId(key, n) != UnitId(key', n')
  {
    if UnitId(key, n) == UnitId(key', n') {
      UnitIdIsInjective(key, n, key', n');
    }
  }

  lemma {:induction false} ContinuingIdsAreDistinct(keys: seq<Text>, rows: seq<UnitRow>, i: nat, j: nat)
    requires AllContinue(keys, rows) && i < j < |rows|
    ensures rows[i].id != rows[j].id
  {
    assert Continues(keys, rows, i) && Continues(keys, rows, j);
    EarlierCount(rows, i, j);
    UnitIdsDiffer(
      rows[i].sectionKey, CountKey(rows[..i], rows[i].sectionKey) + 1,
      rows[j].sectionKey, CountKey(rows[..j], rows[j].sectionKey) + 1);
  }

  /** No two units of an accepted binding share an identifier. */
  lemma {:induction false} UnitIdsAreDistinct(keys: seq<Text>, rows: seq<UnitRow>, i: nat, j: nat)
    requires AreSectionKeys(keys) && IsRoster(keys, rows) && i < j < |rows|
    ensures rows[i].id != rows[j].id
  {
    RosterCharacterisation(keys, rows);
    ContinuingIdsAreDistinct(keys, rows, i, j);
  }

  // ----- the roster the pipeline builds -----

  function AsRows(units: seq<DocumentPipeline.FactualUnit>): (r: seq<UnitRow>)
    ensures |r| == |units| && forall i :: 0 <= i < |r| ==> r[i] == UnitRow(units[i].id, units[i].sectionKey)
  {
    if units == [] then [] else AsRows(units[..|units| - 1]) + [UnitRow(units[|units| - 1].id, units[|units| - 1].sectionKey)]
  }

  function UnitCounts(rules: DocumentPipeline.Heuristics, sections: seq<DocumentPipeline.DraftSection>): (r: seq<nat>)
    ensures |r| == |sections| && forall i :: 0 <= i < |r| ==> r[i] == |rules.unitTexts(sections[i])|
  {
    if sections == [] then []
    else UnitCounts(rules, sections[..|sections| - 1]) + [|rules.unitTexts(sections[|sections| - 1])|]
  }

  lemma {:induction false} UnitsAppend(rules: DocumentPipeline.Heuristics, front: seq<DocumentPipeline.DraftSection>, last: DocumentPipeline.DraftSection)
    ensures DocumentPipeline.FactualUnits(rules, front + [last])
         == DocumentPipeline.FactualUnits(rules, front) + DocumentPipeline.SectionUnits(last.key, rules.unitTexts(last))
  {
    var all := front + [last];
    if front == [] {
      assert all[1..] == [];
    } else {
      assert all[0] == front[0] && all[1..] == front[1..] + [last];
      UnitsAppend(rules, front[1..], last);
    }
  }

  lemma {:induction false} RowsConcat(a: seq<DocumentPipeline.FactualUnit>, b: seq<DocumentPipeline.FactualUnit>)
    ensures AsRows(a + b) == AsRows(a) + AsRows(b)
  {
  }

  lemma {:induction false} RowsOfSection(key: Text, texts: seq<Text>)
    ensures AsRows(DocumentPipeline.SectionUnits(key, texts)) == Rows(key, |texts|)
  {
  }

  lemma {:induction false} RosterExtends(keys: seq<Text>, counts: seq<nat>, key: Text, count: nat)
    requires |keys| == |counts|
    ensures Roster(keys + [key], counts + [count]) == Roster(keys, counts) + Rows(key, count)
  {
    assert (keys + [key])[..|keys|] == keys && (counts + [count])[..|keys|] == counts;
  }

  lemma {:induction false} RosterParameters(rules: DocumentPipeline.Heuristics, front: seq<DocumentPipeline.DraftSection>, last: DocumentPipeline.DraftSection)
    ensures DocumentPipeline.SectionKeys(front + [last]) == DocumentPipeline.SectionKeys(front) + [last.key]
    ensures UnitCounts(rules, front + [last]) == UnitCounts(rules, front) + [|rules.unitTexts(last)|]
  {
  }

  lemma {:induction false} RowsAppend(rules: DocumentPipeline.Heuristics, front: seq<DocumentPipeline.DraftSection>, last: DocumentPipeline.DraftSection)
    ensures AsRows(DocumentPipeline.FactualUnits(rules, front + [last]))
         == AsRows(DocumentPipeline.FactualUnits(rules, front)) + Rows(last.key, |rules.unitTexts(last)|)
  {
    UnitsAppend(rules, front, last);
    RowsConcat(DocumentPipeline.FactualUnits(rules, front), DocumentPipeline.SectionUnits(last.key, rules.unitTexts(last)));
    RowsOfSection(last.key, rules.unitTexts(last));
  }

  lemma {:induction false} RosterAppend(rules: DocumentPipeline.Heuristics, front: seq<DocumentPipeline.DraftSection>, last: DocumentPipeline.DraftSection)
    ensures Roster(DocumentPipeline.SectionKeys(front + [last]), UnitCounts(rules, front + [last]))
         == Roster(DocumentPipeline.SectionKeys(front), UnitCounts(rules, front)) + Rows(last.key, |rules.unitTexts(last)|)
  {
    RosterParameters(rules, front, last);
    RosterExtends(DocumentPipeline.SectionKeys(front), UnitCounts(rules, front), last.key, |rules.unitTexts(last)|);
  }

  lemma {:induction false} SameFold<A, B>(f: seq<A> -> seq<B>, h: seq<A> -> seq<B>, g: A -> seq<B>, xs: seq<A>)
    requires f([]) == h([])
    requires forall front, last :: f(front + [last]) == f(front) + g(last) && h(front + [last]) == h(front) + g(last)
    ensures f(xs) == h(xs)
  {
    if xs != [] {
      var front := xs[..|xs| - 1];
      SameFold(f, h, g, front);
      assert xs == front + [xs[|xs| - 1]];
    }
  }

  /** The units `factualAuditUnits` numbers are a roster of the sections they come from. */
  lemma {:induction false} PipelineUnitsAreRoster(rules: DocumentPipeline.Heuristics, sections: seq<DocumentPipeline.DraftSection>)
    ensures AsRows(DocumentPipeline.FactualUnits(rules, sections))
         == Roster(DocumentPipeline.SectionKeys(sections), UnitCounts(rules, sections))
  {
    var f := (xs: seq<DocumentPipeline.DraftSection>) => AsRows(DocumentPipeline.FactualUnits(rules, xs));
    var h := (xs: seq<DocumentPipeline.DraftSection>) => Roster(DocumentPipeline.SectionKeys(xs), UnitCounts(rules, xs));
    var g := (x: DocumentPipeline.DraftSection) => Rows(x.key, |rules.unitTexts(x)|);
    forall front, last ensures f(front + [last]) == f(front) + g(last) && h(front + [last]) == h(front) + g(last) {
      RowsAppend(rules, front, last);
      RosterAppend(rules, front, last);
    }
    SameFold(f, h, g, sections);
  }

  lemma {:induction false} RowIsIdentified(keys: seq<Text>, rows: seq<UnitRow>, i: nat)
    requires AreSectionKeys(keys) && i < |rows| && Continues(keys, rows, i) && |rows[i].id| <= 200
    ensures IsIdentifier(rows[i].id)
  {
    hide CountKey, Position;
    IdOfKey(rows[i].sectionKey, CountKey(rows[..i], rows[i].sectionKey) + 1);
  }

  /** Within the length limit on identifiers, a binding prepared by the pipeline has an acceptable roster. */
  lemma {:induction false} PreparedRosterIsAccepted(rules: DocumentPipeline.Heuristics, sections: seq<DocumentPipeline.DraftSection>)
    requires AreSectionKeys(DocumentPipeline.SectionKeys(sections))
    requires forall i :: 0 <= i < |DocumentPipeline.FactualUnits(rules, sections)| ==> |DocumentPipeline.FactualUnits(rules, sections)[i].id| <= 200
    ensures IsRoster(DocumentPipeline.SectionKeys(sections), AsRows(DocumentPipeline.FactualUnits(rules, sections)))
  {
    hide AsRows, DocumentPipeline.FactualUnits, Continues, IsIdentifier, Roster, UnitCounts,
         DocumentPipeline.SectionKeys, NoRepeats;
    var keys, rows := DocumentPipeline.SectionKeys(sections), AsRows(DocumentPipeline.FactualUnits(rules, sections));
    var counts := UnitCounts(rules, sections);
    PipelineUnitsAreRoster(rules, sections);
    RosterContinues(keys, counts);
    forall i | 0 <= i < |rows| ensures IsIdentifier(rows[i].id) {
      RowIsIdentified(keys, rows, i);
    }
  }

  lemma {:induction false} IdOfKey(key: Text, n: nat)
    requires IsIdentifier(key)
    ensures IsExact(UnitId(key, n)) && IsTrimmed(UnitId(key, n))
  {
    var suffix := [HASH] + NatText(n);
    assert UnitId(key, n) == key + suffix;
    assert UnitId(key, n)[|key| + |suffix| - 1] == NatText(n)[|NatText(n)| - 1];
    PlainIsExact(suffix);
    ExactConcat(key, suffix);
  }

  lemma {:induction false} PlainIsExact(t: Text)
    requires forall i :: 0 <= i < |t| ==> 0 < t[i] < 0x80
    ensures IsExact(t)
  {
    if t != [] {
      PlainIsExact(t[1..]);
    }
  }

  lemma {:induction false} ExactConcat(a: Text, b: Text)
    requires IsExact(a) && IsExact(b)
    ensures IsExact(a + b)
    decreases |a|
  {
    var t := a + b;
    if a == [] {
      assert t == b;
    } else {
      var k := StepLength(a);
      assert StepLength(t) == k && t[0] == a[0];
      assert t[k..] == a[k..] + b;
      assert forall i :: 0 <= i < |a[k..]| ==> a[k..][i] == a[i + k];
      ExactConcat(a[k..], b);
    }
  }

  // ----- the size of a binding -----

  /** An upper bound on the bytes of the JSON text of a value. */
  function Weight(v: Json): nat
    decreases v, 0
  {
    match v
    case Null => 4
    case Bool(_) => 5
    case Num(n) => ByteLength(Stringify(Num(n)))
    case Str(t) => 6 * |t| + 2
    case Arr(items) => 2 + ItemsWeight(items)
    case Obj(fields) => 2 + FieldsWeight(fields)
  }

  function ItemsWeight(items: seq<Json>): nat
    decreases items, 1
  {
    if items == [] then 0 else Weight(items[0]) + 1 + ItemsWeight(items[1..])
  }

  function FieldsWeight(fields: seq<Field>): nat
    decreases fields, 1
  {
    if fields == [] then 0 else 6 * |fields[0].key| + 4 + Weight(fields[0].value) + FieldsWeight(fields[1..])
  }

  lemma {:induction false} EscapeWeight(s: Text)
    ensures ByteLength(Escape(s)) <= 6 * |s|
  {
    if s != [] {
      var k := StepLength(s);
      EscapeWeight(s[k..]);
      EncodeConcat(StepText(s), Escape(s[k..]));
      StepWeight(s);
    }
  }

  lemma {:induction false} StepWeight(s: Text)
    requires s != []
    ensures ByteLength(StepText(s)) <= 6 * StepLength(s)
  {
    var step := StepText(s);
    if StepLength(s) == 2 {
      assert step[2..] == [];
      assert Encode(step) == EncodeStep(step) + Encode([]);
    } else if |step| == 1 {
      assert step[1..] == [];
      assert Encode(step) == EncodeStep(step) + Encode([]);
    } else {
      PlainBytes(step);
    }
  }

  lemma {:induction false} PlainWeight(t: Text)
    requires forall i :: 0 <= i < |t| ==> t[i] < 0x80
    ensures ByteLength(t) == |t|
  {
    PlainBytes(t);
  }

  lemma {:induction false} QuotedWeight(s: Text)
    ensures ByteLength(Quoted(s)) <= 6 * |s| + 2
  {
    EscapeWeight(s);
    EncodeConcat([QUOTE] + Escape(s), [QUOTE]);
    EncodeConcat([QUOTE], Escape(s));
    PlainWeight([QUOTE]);
  }

  lemma {:induction false} StringifyWeight(v: Json)
    ensures ByteLength(Stringify(v)) <= Weight(v)
    decreases v, 0
  {
    match v
    case Null => PlainWeight(Stringify(v));
    case Bool(_) => PlainWeight(Stringify(v));
    case Num(_) =>
    case Str(t) => QuotedWeight(t);
    case Arr(items) =>
      ItemsTextWeight(items);
      PlainWeight([OPEN_BRACKET]);
      PlainWeight([CLOSE_BRACKET]);
      EncodeConcat([OPEN_BRACKET], ItemsText(items) + [CLOSE_BRACKET]);
      EncodeConcat(ItemsText(items), [CLOSE_BRACKET]);
    case Obj(fields) =>
      FieldsTextWeight(fields);
      PlainWeight([OPEN_BRACE]);
      PlainWeight([CLOSE_BRACE]);
      EncodeConcat([OPEN_BRACE], FieldsText(fields) + [CLOSE_BRACE]);
      EncodeConcat(FieldsText(fields), [CLOSE_BRACE]);
  }

  lemma {:induction false} ItemsTextWeight(items: seq<Json>)
    ensures ByteLength(ItemsText(items)) <= ItemsWeight(items)
    ensures ByteLength(MoreItems(items)) <= ItemsWeight(items)
    decreases items, 1
  {
    if items != [] {
      StringifyWeight(items[0]);
      ItemsTextWeight(items[1..]);
      PlainWeight([COMMA]);
      EncodeConcat(Stringify(items[0]), MoreItems(items[1..]));
      EncodeConcat([COMMA], Stringify(items[0]) + MoreItems(items[1..]));
    }
  }

  lemma {:induction false} FieldsTextWeight(fields: seq<Field>)
    ensures ByteLength(FieldsText(fields)) <= FieldsWeight(fields)
    ensures ByteLength(MoreFields(fields)) <= FieldsWeight(fields)
    decreases fields, 1
  {
    if fields != [] {
      var f := fields[0];
      StringifyWeight(f.value);
      FieldsTextWeight(fields[1..]);
      QuotedWeight(f.key);
      PlainWeight([COMMA]);
      PlainWeight([COLON]);
      EncodeConcat([COLON], Stringify(f.value));
      EncodeConcat(Quoted(f.key), [COLON] + Stringify(f.value));
      EncodeConcat(FieldText(f), MoreFields(fields[1..]));
      EncodeConcat([COMMA], FieldText(f) + MoreFields(fields[1..]));
    }
  }

  // ----- the validator -----

  datatype SectionRow = SectionRow(key: Text, title: Text, digest: Text)

  datatype UnitEntry = UnitEntry(row: UnitRow, digest: Text)

  /** A binding as it comes in, with its properties in the order in which they are printed. */
  datatype Binding = Binding(
    version: Text,
    digestVersion: Text,
    validatorVersion: Text,
    unitPolicyVersion: Text,
    reviewKind: Text,
    round: Json,
    schemaName: Text,
    schemaVersion: Text,
    evidenceMode: Text,
    sourceSha256: Text,
    policyVersion: Text,
    policySha256: Text,
    targetSha256: Text,
    sections: seq<SectionRow>,
    units: seq<UnitEntry>)

  // Property names, as code units.
  const VERSION: Text := [118, 101, 114, 115, 105, 111, 110]
  const DIGEST_VERSION: Text := [100, 105, 103, 101, 115, 116, 95, 118, 101, 114, 115, 105, 111, 110]
  const VALIDATOR_VERSION: Text := [118, 97, 108, 105, 100, 97, 116, 111, 114, 95, 118, 101, 114, 115, 105, 111, 110]
  const UNIT_POLICY_VERSION: Text := [117, 110, 105, 116, 95, 112, 111, 108, 105, 99, 121, 95, 118, 101, 114, 115, 105, 111, 110]
  const REVIEW_KIND: Text := [114, 101, 118, 105, 101, 119, 95, 107, 105, 110, 100]
  const ROUND: Text := [114, 111, 117, 110, 100]
  const SCHEMA_NAME: Text := [111, 117, 116, 112, 117, 116, 95, 115, 99, 104, 101, 109, 97, 95, 110, 97, 109, 101]
  const SCHEMA_VERSION: Text := [111, 117, 116, 112, 117, 116, 95, 115, 99, 104, 101, 109, 97, 95, 118, 101, 114, 115, 105, 111, 110]
  const EVIDENCE_MODE: Text := [101, 118, 105, 100, 101, 110, 99, 101, 95, 109, 111, 100, 101]
  const SOURCE_SHA256: Text := [115, 111, 117, 114, 99, 101, 95, 115, 104, 97, 50, 53, 54]
  const POLICY_VERSION: Text := [101, 120, 101, 99, 117, 116, 105, 111, 110, 95, 112, 111, 108, 105, 99, 121, 95, 118, 101, 114, 115, 105, 111, 110]
  const POLICY_SHA256: Text := [101, 120, 101, 99, 117, 116, 105, 111, 110, 95, 112, 111, 108, 105, 99, 121, 95, 115, 104, 97, 50, 53, 54]
  const TARGET_SHA256: Text := [116, 97, 114, 103, 101, 116, 95, 115, 104, 97, 50, 53, 54]
  const SECTIONS: Text := [115, 101, 99, 116, 105, 111, 110, 115]
  const UNITS: Text := [117, 110, 105, 116, 115]
  const KEY: Text := [107, 101, 121]
  const LABEL: Text := [108, 97, 98, 101, 108]
  const CONTENT_SHA256: Text := [99, 111, 110, 116, 101, 110, 116, 95, 115, 104, 97, 50, 53, 54]
  const ID: Text := [105, 100]
  const SECTION_KEY: Text := [115, 101, 99, 116, 105, 111, 110, 95, 107, 101, 121]

  // Fixed texts.
  const BINDING_1: Text := [108, 101, 103, 97, 99, 121, 45, 100, 111, 99, 117, 109, 101, 110, 116, 45, 97, 117, 100, 105, 116, 45, 98, 105, 110, 100, 105, 110, 103, 46, 49]
  const DIGESTS_1: Text := [108, 101, 103, 97, 99, 121, 45, 100, 111, 99, 117, 109, 101, 110, 116, 45, 97, 117, 100, 105, 116, 45, 100, 105, 103, 101, 115, 116, 115, 46, 49]
  const ASSESSMENT_1: Text := [108, 101, 103, 97, 99, 121, 45, 119, 111, 114, 100, 105, 110, 103, 45, 97, 115, 115, 101, 115, 115, 109, 101, 110, 116, 46, 49]
  const UNITS_2: Text := [108, 101, 103, 97, 99, 121, 45, 102, 97, 99, 116, 117, 97, 108, 45, 117, 110, 105, 116, 115, 46, 50]
  const TEMPLATE_POLICY_1: Text := [108, 101, 103, 97, 99, 121, 45, 116, 101, 109, 112, 108, 97, 116, 101, 45, 112, 111, 108, 105, 99, 121, 46, 49]
  const VERBATIM: Text := [118, 101, 114, 98, 97, 116, 105, 109]
  const QUALITY: Text := [113, 117, 97, 108, 105, 116, 121]
  const GROUNDING: Text := [103, 114, 111, 117, 110, 100, 105, 110, 103]
  const PROMPTED: Text := [112, 114, 111, 109, 112, 116, 101, 100, 95, 100, 111, 99, 117, 109, 101, 110, 116, 95]
  const AUDIT_SUFFIX: Text := [95, 97, 117, 100, 105, 116]
  const DOCUMENT: Text := [100, 111, 99, 117, 109, 101, 110, 116, 45]
  const AUDIT_1: Text := [45, 97, 117, 100, 105, 116, 46, 49]

  const MAX_LABEL: nat := 1_000
  const MAX_SECTIONS: nat := 128
  const MAX_UNITS: nat := 512

  /** metadataText: visible exact text within a limit. */
  predicate IsMetadata(t: Text, limit: nat) {
    |t| <= limit && IsExact(t) && IsVisible(t)
  }

  predicate IsHexDigit(u: CodeUnit) {
    IsDigit(u) || 97 <= u <= 102
  }

  /** digest: 64 lower-case hexadecimal digits. */
  predicate IsDigest(t: Text) {
    |t| == 64 && forall i :: 0 <= i < |t| ==> IsHexDigit(t[i])
  }

  /** An integer from 0 to 3. */
  predicate IsRound(v: Json) {
    v.Num? && (v.number.Zero? || (!v.number.negative && v.number.point == 1 && |v.number.digits| == 1 && 49 <= v.number.digits[0] <= 51))
  }

  function SectionRowKeys(rows: seq<SectionRow>): (r: seq<Text>)
    ensures |r| == |rows| && forall i :: 0 <= i < |r| ==> r[i] == rows[i].key
  {
    if rows == [] then [] else SectionRowKeys(rows[..|rows| - 1]) + [rows[|rows| - 1].key]
  }

  function RowsOf(units: seq<UnitEntry>): (r: seq<UnitRow>)
    ensures |r| == |units| && forall i :: 0 <= i < |r| ==> r[i] == units[i].row
  {
    if units == [] then [] else RowsOf(units[..|units| - 1]) + [units[|units| - 1].row]
  }

  predicate HeaderIsAccepted(b: Binding) {
    && b.version == BINDING_1 && b.digestVersion == DIGESTS_1
    && b.validatorVersion == ASSESSMENT_1 && b.unitPolicyVersion == UNITS_2
    && (b.reviewKind == QUALITY || b.reviewKind == GROUNDING)
    && IsRound(b.round)
    && b.schemaName == PROMPTED + b.reviewKind + AUDIT_SUFFIX && b.schemaVersion == DOCUMENT + b.reviewKind + AUDIT_1
    && b.evidenceMode == VERBATIM && b.policyVersion == TEMPLATE_POLICY_1
    && 1 <= |b.sections| <= MAX_SECTIONS
    && (if b.reviewKind == GROUNDING then 1 else 0) <= |b.units| <= MAX_UNITS
  }

  predicate SectionIsAccepted(rows: seq<SectionRow>, i: nat)
    requires i < |rows|
  {
    && IsIdentifier(rows[i].key) && (forall j :: 0 <= j < i ==> rows[j].key != rows[i].key)
    && IsMetadata(rows[i].title, MAX_LABEL) && IsDigest(rows[i].digest)
  }

  predicate SectionsAreAccepted(rows: seq<SectionRow>) {
    forall i :: 0 <= i < |rows| ==> SectionIsAccepted(rows, i)
  }

  /** What the validator accepts. */
  ghost predicate IsBinding(b: Binding) {
    && HeaderIsAccepted(b)
    && SectionsAreAccepted(b.sections)
    && IsRoster(SectionRowKeys(b.sections), RowsOf(b.units))
    && (forall i :: 0 <= i < |b.units| ==> IsDigest(b.units[i].digest))
    && IsDigest(b.sourceSha256) && IsDigest(b.policySha256) && IsDigest(b.targetSha256)
  }

  lemma {:induction false} AcceptedKeys(rows: seq<SectionRow>)
    requires SectionsAreAccepted(rows)
    ensures AreSectionKeys(SectionRowKeys(rows))
  {
    forall i | 0 <= i < |rows| ensures IsIdentifier(rows[i].key) && forall j :: 0 <= j < i ==> rows[j].key != rows[i].key {
      assert SectionIsAccepted(rows, i);
    }
  }

  /** The loop over the section rows. */
  method ValidateSections(rows: seq<SectionRow>) returns (ok: bool)
    ensures ok <==> SectionsAreAccepted(rows)
  {
    var seen: set<Text> := {};
    for i := 0 to |rows|
      invariant forall k :: 0 <= k < i ==> SectionIsAccepted(rows, k)
      invariant forall key :: key in seen <==> exists k :: 0 <= k < i && rows[k].key == key
    {
      var row := rows[i];
      if !IsIdentifier(row.key) || row.key in seen || !IsMetadata(row.title, MAX_LABEL) || !IsDigest(row.digest) {
        assert !SectionIsAccepted(rows, i);
        return false;
      }
      seen := seen + {row.key};
    }
    ok := true;
  }

  /** validateLegacyDocumentAuditBinding: the final ceiling on the serialised binding never rejects. */
  method ValidateBinding(b: Binding) returns (ok: bool)
    ensures ok <==> IsBinding(b)
  {
    hide HeaderIsAccepted, SectionsAreAccepted, IsRoster, Stringify, BindingJson, ByteLength;
    if !HeaderIsAccepted(b) {
      return false;
    }
    ok := ValidateSections(b.sections);
    if !ok {
      return;
    }
    AcceptedKeys(b.sections);
    ok := ValidateUnits(SectionRowKeys(b.sections), RowsOf(b.units));
    if !ok {
      return;
    }
    for i := 0 to |b.units|
      invariant forall k :: 0 <= k < i ==> IsDigest(b.units[k].digest)
    {
      if !IsDigest(b.units[i].digest) {
        return false;
      }
    }
    if !IsDigest(b.sourceSha256) || !IsDigest(b.policySha256) || !IsDigest(b.targetSha256) {
      return false;
    }
    BindingFitsCeiling(b);
    ok := ByteLength(Stringify(BindingJson(b))) <= MAX_BINDING_BYTES;
  }

  // ----- its printed form -----

  function SectionJson(row: SectionRow): Json {
    Obj([Field(KEY, Str(row.key)), Field(LABEL, Str(row.title)), Field(CONTENT_SHA256, Str(row.digest))])
  }

  function UnitJson(unit: UnitEntry): Json {
    Obj([Field(ID, Str(unit.row.id)), Field(SECTION_KEY, Str(unit.row.sectionKey)), Field(CONTENT_SHA256, Str(unit.digest))])
  }

  function SectionsJson(rows: seq<SectionRow>): seq<Json> {
    if rows == [] then [] else [SectionJson(rows[0])] + SectionsJson(rows[1..])
  }

  function UnitsJson(units: seq<UnitEntry>): seq<Json> {
    if units == [] then [] else [UnitJson(units[0])] + UnitsJson(units[1..])
  }

  function HeaderFields(b: Binding): seq<Field> {
    [Field(VERSION, Str(b.version)),
     Field(DIGEST_VERSION, Str(b.digestVersion)),
     Field(VALIDATOR_VERSION, Str(b.validatorVersion)),
     Field(UNIT_POLICY_VERSION, Str(b.unitPolicyVersion)),
     Field(REVIEW_KIND, Str(b.reviewKind)),
     Field(ROUND, b.round),
     Field(SCHEMA_NAME, Str(b.schemaName)),
     Field(SCHEMA_VERSION, Str(b.schemaVersion)),
     Field(EVIDENCE_MODE, Str(b.evidenceMode)),
     Field(SOURCE_SHA256, Str(b.sourceSha256)),
     Field(POLICY_VERSION, Str(b.policyVersion)),
     Field(POLICY_SHA256, Str(b.policySha256)),
     Field(TARGET_SHA256, Str(b.targetSha256))]
  }

  function BindingJson(b: Binding): Json {
    Obj(HeaderFields(b) + [Field(SECTIONS, Arr(SectionsJson(b.sections))), Field(UNITS, Arr(UnitsJson(b.units)))])
  }

  const MAX_BINDING_BYTES: nat := 4_194_304

  /** A digest or fixed text has at most 64 units, and a round prints one digit. */
  predicate IsShortScalar(v: Json) {
    (v.Str? && |v.text| <= 64) || IsRound(v)
  }

  predicate IsShortField(f: Field) {
    |f.key| <= 40 && IsShortScalar(f.value)
  }

  predicate AreShortFields(fields: seq<Field>) {
    forall i :: 0 <= i < |fields| ==> IsShortField(fields[i])
  }

  lemma {:induction false} HeaderIsShort(b: Binding)
    requires HeaderIsAccepted(b) && IsDigest(b.sourceSha256) && IsDigest(b.policySha256) && IsDigest(b.targetSha256)
    ensures |HeaderFields(b)| == 13 && AreShortFields(HeaderFields(b))
  {
  }

  lemma {:induction false} RoundPrintsOneDigit(v: Json)
    requires IsRound(v)
    ensures |Stringify(v)| == 1 && Stringify(v)[0] < 0x80
  {
  }

  predicate SectionTextFits(row: SectionRow) {
    |row.key| <= 200 && |row.title| <= MAX_LABEL && |row.digest| == 64
  }

  predicate UnitTextFits(unit: UnitEntry) {
    |unit.row.id| <= 200 && |unit.row.sectionKey| <= 200 && |unit.digest| == 64
  }

  lemma {:induction false} AcceptedTextFits(b: Binding)
    requires IsBinding(b)
    ensures forall i :: 0 <= i < |b.sections| ==> SectionTextFits(b.sections[i])
    ensures forall i :: 0 <= i < |b.units| ==> UnitTextFits(b.units[i])
  {
    var keys, rows := SectionRowKeys(b.sections), RowsOf(b.units);
    forall i | 0 <= i < |b.sections| ensures SectionTextFits(b.sections[i]) {
      assert SectionIsAccepted(b.sections, i);
    }
    var counts: seq<nat> :| |counts| == |keys| && rows == Roster(keys, counts);
    forall i | 0 <= i < |b.units| ensures UnitTextFits(b.units[i]) {
      var p := RosterRows(keys, counts, i);
      assert SectionIsAccepted(b.sections, p) && rows[i].sectionKey == keys[p];
    }
  }

  lemma {:induction false} SectionsWeight(rows: seq<SectionRow>)
    requires forall i :: 0 <= i < |rows| ==> SectionTextFits(rows[i])
    ensures ItemsWeight(SectionsJson(rows)) <= |rows| * 7_737
  {
    if rows != [] {
      SectionsWeight(rows[1..]);
      var row := rows[0];
      var a, b, c := Field(KEY, Str(row.key)), Field(LABEL, Str(row.title)), Field(CONTENT_SHA256, Str(row.digest));
      ThreeFields(a, b, c);
      assert SectionJson(row) == Obj([a, b, c]);
      assert SectionsJson(rows)[1..] == SectionsJson(rows[1..]);
    }
  }

  lemma {:induction false} ThreeFields(a: Field, b: Field, c: Field)
    ensures FieldsWeight([a, b, c]) ==
              (6 * |a.key| + 4 + Weight(a.value)) + (6 * |b.key| + 4 + Weight(b.value)) + (6 * |c.key| + 4 + Weight(c.value))
  {
    assert [a, b, c][1..] == [b, c] && [b, c][1..] == [c] && [c][1..] == [];
    assert FieldsWeight([c]) == 6 * |c.key| + 4 + Weight(c.value);
    assert FieldsWeight([b, c]) == 6 * |b.key| + 4 + Weight(b.value) + FieldsWeight([c]);
  }

  lemma {:induction false} UnitsWeight(units: seq<UnitEntry>)
    requires forall i :: 0 <= i < |units| ==> UnitTextFits(units[i])
    ensures ItemsWeight(UnitsJson(units)) <= |units| * 2_967
  {
    if units != [] {
      UnitsWeight(units[1..]);
      var unit := units[0];
      var a, b, c := Field(ID, Str(unit.row.id)), Field(SECTION_KEY, Str(unit.row.sectionKey)), Field(CONTENT_SHA256, Str(unit.digest));
      ThreeFields(a, b, c);
      assert UnitJson(unit) == Obj([a, b, c]);
      assert UnitsJson(units)[1..] == UnitsJson(units[1..]);
    }
  }

  lemma {:induction false} HeaderWeight(fields: seq<Field>, rest: seq<Field>)
    requires AreShortFields(fields)
    ensures FieldsWeight(fields + rest) <= |fields| * 630 + FieldsWeight(rest)
  {
    if fields == [] {
      assert fields + rest == rest;
    } else {
      assert (fields + rest)[1..] == fields[1..] + rest;
      assert IsShortField(fields[0]) && forall i :: 0 <= i < |fields[1..]| ==> fields[1..][i] == fields[i + 1];
      HeaderWeight(fields[1..], rest);
      if fields[0].value.Num? {
        RoundPrintsOneDigit(fields[0].value);
        PlainWeight(Stringify(fields[0].value));
      }
    }
  }

  lemma {:induction false} TwoFields(a: Field, b: Field)
    ensures FieldsWeight([a, b]) == (6 * |a.key| + 4 + Weight(a.value)) + (6 * |b.key| + 4 + Weight(b.value))
  {
    assert [a, b][1..] == [b] && [b][1..] == [];
    assert FieldsWeight([b]) == 6 * |b.key| + 4 + Weight(b.value);
  }

  lemma {:induction false} RowsFit(b: Binding)
    requires |b.sections| <= MAX_SECTIONS && |b.units| <= MAX_UNITS
    requires ItemsWeight(SectionsJson(b.sections)) <= |b.sections| * 7_737 && ItemsWeight(UnitsJson(b.units)) <= |b.units| * 2_967
    ensures FieldsWeight([Field(SECTIONS, Arr(SectionsJson(b.sections))), Field(UNITS, Arr(UnitsJson(b.units)))]) <= 2_600_000
  {
    TwoFields(Field(SECTIONS, Arr(SectionsJson(b.sections))), Field(UNITS, Arr(UnitsJson(b.units))));
  }

  /** A binding that passed the other checks never exceeds the final four-mebibyte ceiling. */
  lemma {:induction false} BindingFitsCeiling(b: Binding)
    requires IsBinding(b)
    ensures ByteLength(Stringify(BindingJson(b))) <= MAX_BINDING_BYTES
  {
    hide IsRoster, SectionsAreAccepted, Stringify, ByteLength, HeaderFields, SectionsJson, UnitsJson, FieldsWeight,
         IsDigest;
    var header, rest := HeaderFields(b), [Field(SECTIONS, Arr(SectionsJson(b.sections))), Field(UNITS, Arr(UnitsJson(b.units)))];
    AcceptedTextFits(b);
    HeaderIsShort(b);
    StringifyWeight(BindingJson(b));
    SectionsWeight(b.sections);
    UnitsWeight(b.units);
    RowsFit(b);
    HeaderWeight(header, rest);
  }

  /** The bytes that the variable text of a binding, its keys, labels and identifiers, takes when printed. */
  function VariableBytes(b: Binding): nat {
    SectionBytes(b.sections) + UnitBytes(b.units)
  }

  function SectionBytes(rows: seq<SectionRow>): nat {
    if rows == [] then 0 else ByteLength(Escape(rows[0].key)) + ByteLength(Escape(rows[0].title)) + SectionBytes(rows[1..])
  }

  function UnitBytes(units: seq<UnitEntry>): nat {
    if units == [] then 0 else ByteLength(Escape(units[0].row.id)) + ByteLength(Escape(units[0].row.sectionKey)) + UnitBytes(units[1..])
  }

  lemma {:induction false} SectionBytesBound(rows: seq<SectionRow>)
    requires forall i :: 0 <= i < |rows| ==> SectionTextFits(rows[i])
    ensures SectionBytes(rows) <= 7_200 * |rows|
  {
    if rows != [] {
      EscapeWeight(rows[0].key);
      EscapeWeight(rows[0].title);
      SectionBytesBound(rows[1..]);
    }
  }

  lemma {:induction false} UnitBytesBound(units: seq<UnitEntry>)
    requires forall i :: 0 <= i < |units| ==> UnitTextFits(units[i])
    ensures UnitBytes(units) <= 2_400 * |units|
  {
    if units != [] {
      EscapeWeight(units[0].row.id);
      EscapeWeight(units[0].row.sectionKey);
      UnitBytesBound(units[1..]);
    }
  }

  /** The variable text of an accepted binding takes at most 2,150,400 bytes, escapes included. */
  lemma {:induction false} VariableTextBound(b: Binding)
    requires IsBinding(b)
    ensures VariableBytes(b) <= 2_150_400
  {
    AcceptedTextFits(b);
    SectionBytesBound(b.sections);
    UnitBytesBound(b.units);
  }
}
