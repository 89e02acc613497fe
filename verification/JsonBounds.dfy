/**
 auth-guard.ts, lines 433-478: the bounds on the structure of a JSON request.

 The check walks the value with an explicit stack and stops as soon as a running
 count is too large. It accepts exactly the values whose recursive totals, depth and
 field names are within the limits; a walk in any other order would decide the same.
 */
module JsonBounds {
  import opened Texts
  import opened JsonText

  const MAX_DEPTH: nat := 32
  const MAX_KEYS: nat := 5_000
  const MAX_ARRAY_ITEMS: nat := 5_000
  const MAX_NODES: nat := 20_000
  const MAX_KEY_LENGTH: nat := 200

  // ----- the recursive definition -----

  /** Totals over a value: nodes, object fields, array items, levels below it, and the longest field name. */
  datatype Totals = Totals(nodes: nat, keys: nat, items: nat, depth: nat, longest: nat)

  function Max(a: nat, b: nat): nat {
    if a < b then b else a
  }

  function Plus(a: Totals, b: Totals): Totals {
    Totals(a.nodes + b.nodes, a.keys + b.keys, a.items + b.items, Max(a.depth, b.depth), Max(a.longest, b.longest))
  }

  const NOTHING := Totals(0, 0, 0, 0, 0)

  /** The totals of a value that stands at the given depth. */
  function TotalsOf(v: Json, depth: nat): (r: Totals)
    ensures r.nodes > 0
    decreases v, 0
  {
    match v
    case Arr(items) => Plus(Totals(1, 0, |items|, depth, 0), ItemTotals(items, depth + 1))
    case Obj(fields) => Plus(Totals(1, |fields|, 0, depth, 0), FieldTotals(fields, depth + 1))
    case _ => Totals(1, 0, 0, depth, 0)
  }

  function ItemTotals(items: seq<Json>, depth: nat): Totals
    decreases items, 1
  {
    if items == [] then NOTHING else Plus(TotalsOf(items[0], depth), ItemTotals(items[1..], depth))
  }

  function FieldTotals(fields: seq<Field>, depth: nat): Totals
    decreases fields, 1
  {
    if fields == [] then NOTHING
    else Plus(Plus(Totals(0, 0, 0, 0, |fields[0].key|), TotalsOf(fields[0].value, depth)), FieldTotals(fields[1..], depth))
  }

  predicate IsWithin(t: Totals) {
    t.nodes <= MAX_NODES && t.keys <= MAX_KEYS && t.items <= MAX_ARRAY_ITEMS && t.depth <= MAX_DEPTH && t.longest <= MAX_KEY_LENGTH
  }

  // ----- the worklist -----

  datatype Entry = Entry(value: Json, depth: nat)

  function StackTotals(stack: seq<Entry>): Totals {
    if stack == [] then NOTHING
    else Plus(StackTotals(stack[..|stack| - 1]), TotalsOf(stack[|stack| - 1].value, stack[|stack| - 1].depth))
  }

  lemma {:induction false} PlusRegroups(a: Totals, b: Totals, c: Totals)
    ensures Plus(a, Plus(b, c)) == Plus(Plus(a, b), c)
  {
  }

  lemma {:induction false} PlusNothing(a: Totals)
    ensures Plus(a, NOTHING) == a && Plus(NOTHING, a) == a
  {
  }

  lemma {:induction false} StackPush(stack: seq<Entry>, e: Entry)
    ensures StackTotals(stack + [e]) == Plus(StackTotals(stack), TotalsOf(e.value, e.depth))
  {
    assert (stack + [e])[..|stack|] == stack;
  }

  lemma {:induction false} StackConcat(a: seq<Entry>, b: seq<Entry>)
    ensures StackTotals(a + b) == Plus(StackTotals(a), StackTotals(b))
    decreases |b|
  {
    if b == [] {
      assert a + b == a;
      PlusNothing(StackTotals(a));
    } else {
      var front, e := b[..|b| - 1], b[|b| - 1];
      StackConcat(a, front);
      Resplit(a, front, e, b);
      PushConcat(a, front, e);
    }
  }

  lemma {:induction false} PushConcat(a: seq<Entry>, front: seq<Entry>, e: Entry)
    requires StackTotals(a + front) == Plus(StackTotals(a), StackTotals(front))
    ensures StackTotals(a + front + [e]) == Plus(StackTotals(a), StackTotals(front + [e]))
  {
    StackPush(a + front, e);
    StackPush(front, e);
    PlusRegroups(StackTotals(a), StackTotals(front), TotalsOf(e.value, e.depth));
  }

  lemma {:induction false} Resplit(a: seq<Entry>, front: seq<Entry>, e: Entry, b: seq<Entry>)
    requires b == front + [e]
    ensures a + front + [e] == a + b
  {
  }

  function ItemEntries(items: seq<Json>, depth: nat): (r: seq<Entry>)
    ensures |r| == |items| && forall i :: 0 <= i < |r| ==> r[i] == Entry(items[i], depth)
  {
    if items == [] then [] else [Entry(items[0], depth)] + ItemEntries(items[1..], depth)
  }

  function FieldEntries(fields: seq<Field>, depth: nat): (r: seq<Entry>)
    ensures |r| == |fields| && forall i :: 0 <= i < |r| ==> r[i] == Entry(fields[i].value, depth)
  {
    if fields == [] then [] else [Entry(fields[0].value, depth)] + FieldEntries(fields[1..], depth)
  }

  function LongestKey(fields: seq<Field>): nat {
    if fields == [] then 0 else Max(|fields[0].key|, LongestKey(fields[1..]))
  }

  lemma {:induction false} OneEntry(v: Json, depth: nat)
    ensures StackTotals([Entry(v, depth)]) == TotalsOf(v, depth)
  {
    assert [Entry(v, depth)][..0] == [];
  }

  lemma {:induction false} ItemsAsStack(items: seq<Json>, depth: nat)
    ensures StackTotals(ItemEntries(items, depth)) == ItemTotals(items, depth)
    decreases |items|
  {
    if items != [] {
      OneEntry(items[0], depth);
      ItemsAsStack(items[1..], depth);
      StackConcat([Entry(items[0], depth)], ItemEntries(items[1..], depth));
    }
  }

  lemma {:induction false} FieldsAsStack(fields: seq<Field>, depth: nat)
    ensures Plus(Totals(0, 0, 0, 0, LongestKey(fields)), StackTotals(FieldEntries(fields, depth))) == FieldTotals(fields, depth)
    decreases |fields|
  {
    if fields != [] {
      OneEntry(fields[0].value, depth);
      FieldsAsStack(fields[1..], depth);
      StackConcat([Entry(fields[0].value, depth)], FieldEntries(fields[1..], depth));
    }
  }

  lemma {:induction false} LongestIsWithin(fields: seq<Field>)
    ensures LongestKey(fields) <= MAX_KEY_LENGTH <==> forall i :: 0 <= i < |fields| ==> |fields[i].key| <= MAX_KEY_LENGTH
    decreases |fields|
  {
    if fields != [] {
      LongestIsWithin(fields[1..]);
      assert forall i :: 1 <= i < |fields| ==> fields[i] == fields[1..][i - 1];
      assert forall i :: 0 <= i < |fields[1..]| ==> fields[1..][i] == fields[i + 1];
    }
  }

  /** What one popped entry contributes by itself, and what it leaves on the stack. */
  function Own(e: Entry): Totals {
    match e.value
    case Arr(items) => Totals(1, 0, |items|, e.depth, 0)
    case Obj(fields) => Totals(1, |fields|, 0, e.depth, LongestKey(fields))
    case _ => Totals(1, 0, 0, e.depth, 0)
  }

  function Children(e: Entry): seq<Entry> {
    match e.value
    case Arr(items) => ItemEntries(items, e.depth + 1)
    case Obj(fields) => FieldEntries(fields, e.depth + 1)
    case _ => []
  }

  predicate IsSplit(e: Entry) {
    TotalsOf(e.value, e.depth) == Plus(Own(e), StackTotals(Children(e)))
  }

  lemma {:induction false} ArraySplits(items: seq<Json>, depth: nat)
    ensures IsSplit(Entry(Arr(items), depth))
  {
    var own, children := Totals(1, 0, |items|, depth, 0), ItemEntries(items, depth + 1);
    assert TotalsOf(Arr(items), depth) == Plus(own, StackTotals(children)) by {
      ArrayTotals(items, depth);
    }
    assert Own(Entry(Arr(items), depth)) == own;
    assert Children(Entry(Arr(items), depth)) == children;
  }

  lemma {:induction false} ArrayTotals(items: seq<Json>, depth: nat)
    ensures TotalsOf(Arr(items), depth) == Plus(Totals(1, 0, |items|, depth, 0), StackTotals(ItemEntries(items, depth + 1)))
  {
    assert TotalsOf(Arr(items), depth) == Plus(Totals(1, 0, |items|, depth, 0), ItemTotals(items, depth + 1));
    ItemsAsStack(items, depth + 1);
  }

  lemma {:induction false} NameCounts(a: Totals, longest: nat, rest: Totals, fields: Totals)
    requires a.longest == 0 && fields == Plus(Totals(0, 0, 0, 0, longest), rest)
    ensures Plus(a, fields) == Plus(a.(longest := longest), rest)
  {
  }

  lemma {:induction false} ObjectSplits(fields: seq<Field>, depth: nat)
    ensures IsSplit(Entry(Obj(fields), depth))
  {
    var own, children := Totals(1, |fields|, 0, depth, LongestKey(fields)), FieldEntries(fields, depth + 1);
    assert TotalsOf(Obj(fields), depth) == Plus(own, StackTotals(children)) by {
      ObjectTotals(fields, depth);
    }
    assert Own(Entry(Obj(fields), depth)) == own;
    assert Children(Entry(Obj(fields), depth)) == children;
  }

  lemma {:induction false} ObjectTotals(fields: seq<Field>, depth: nat)
    ensures TotalsOf(Obj(fields), depth) == Plus(Totals(1, |fields|, 0, depth, LongestKey(fields)), StackTotals(FieldEntries(fields, depth + 1)))
  {
    assert TotalsOf(Obj(fields), depth) == Plus(Totals(1, |fields|, 0, depth, 0), FieldTotals(fields, depth + 1));
    FieldsAsStack(fields, depth + 1);
    NamesSplit(Totals(1, |fields|, 0, depth, 0), fields, depth + 1);
  }

  lemma {:induction false} NamesSplit(a: Totals, fields: seq<Field>, depth: nat)
    requires a.longest == 0
    requires Plus(Totals(0, 0, 0, 0, LongestKey(fields)), StackTotals(FieldEntries(fields, depth))) == FieldTotals(fields, depth)
    ensures Plus(a, FieldTotals(fields, depth)) == Plus(a.(longest := LongestKey(fields)), StackTotals(FieldEntries(fields, depth)))
  {
    NameCounts(a, LongestKey(fields), StackTotals(FieldEntries(fields, depth)), FieldTotals(fields, depth));
  }

  lemma {:induction false} LeafSplits(v: Json, depth: nat)
    requires !v.Arr? && !v.Obj?
    ensures IsSplit(Entry(v, depth))
  {
  }

  lemma {:induction false} EntrySplits(e: Entry)
    ensures IsSplit(e)
  {
    if e.value.Arr? {
      ArraySplits(e.value.items, e.depth);
    } else if e.value.Obj? {
      ObjectSplits(e.value.fields, e.depth);
    } else {
      LeafSplits(e.value, e.depth);
    }
  }

  lemma {:induction false} PlusSwaps(a: Totals, b: Totals, c: Totals)
    ensures Plus(a, Plus(b, c)) == Plus(b, Plus(a, c))
  {
  }

  lemma {:induction false} PopIsExact(rest: seq<Entry>, e: Entry)
    ensures StackTotals(rest + [e]) == Plus(Own(e), StackTotals(rest + Children(e)))
  {
    StackPush(rest, e);
    StackConcat(rest, Children(e));
    EntrySplits(e);
    PlusSwaps(StackTotals(rest), Own(e), StackTotals(Children(e)));
  }

  lemma {:induction false} PickIsExact(before: seq<Entry>, e: Entry, after: seq<Entry>)
    ensures StackTotals(before + [e] + after) == Plus(Own(e), StackTotals(before + after + Children(e)))
  {
    StackConcat(before + [e], after);
    StackConcat(before, after);
    StackPush(before, e);
    SwapLast(StackTotals(before), TotalsOf(e.value, e.depth), StackTotals(after));
    StackPush(before + after, e);
    PopIsExact(before + after, e);
  }

  lemma {:induction false} SwapLast(a: Totals, b: Totals, c: Totals)
    ensures Plus(Plus(a, b), c) == Plus(Plus(a, c), b)
  {
  }

  function Without(stack: seq<Entry>, at: nat): seq<Entry>
    requires at < |stack|
  {
    stack[..at] + stack[at + 1..]
  }

  /** One step of the walk, whichever entry it takes, keeps the sum of what has been seen and what is left. */
  lemma {:induction false} WalkStep(seen: Totals, stack: seq<Entry>, at: nat)
    requires at < |stack|
    ensures var e, rest := stack[at], Without(stack, at);
            && Plus(seen, StackTotals(stack)) == Plus(Plus(seen, Own(e)), StackTotals(rest + Children(e)))
            && StackTotals(rest + Children(e)).nodes < StackTotals(stack).nodes
  {
    var e, rest := stack[at], Without(stack, at);
    assert stack == stack[..at] + [e] + stack[at + 1..];
    PickIsExact(stack[..at], e, stack[at + 1..]);
    PlusRegroups(seen, Own(e), StackTotals(rest + Children(e)));
  }

  datatype Progress = Stopped | Left(seen: Totals, stack: seq<Entry>)

  /** A walk that takes the entries in the order of the given positions, until a count is too large. */
  function WalkBy(seen: Totals, stack: seq<Entry>, positions: seq<nat>): Progress
    decreases |positions|
  {
    if positions == [] || positions[0] >= |stack| then Left(seen, stack)
    else
      var e := stack[positions[0]];
      var next := Plus(seen, Own(e));
      if !IsWithin(next) then Stopped else WalkBy(next, Without(stack, positions[0]) + Children(e), positions[1..])
  }

  lemma {:induction false} WalkByIsExact(seen: Totals, stack: seq<Entry>, positions: seq<nat>)
    requires IsWithin(seen)
    ensures match WalkBy(seen, stack, positions)
            case Stopped => !IsWithin(Plus(seen, StackTotals(stack)))
            case Left(counted, left) => IsWithin(counted) && Plus(counted, StackTotals(left)) == Plus(seen, StackTotals(stack))
    decreases |positions|
  {
    if positions != [] && positions[0] < |stack| {
      var e, rest := stack[positions[0]], Without(stack, positions[0]);
      WalkStep(seen, stack, positions[0]);
      TooMuchStays(Plus(seen, Own(e)), StackTotals(rest + Children(e)));
      if IsWithin(Plus(seen, Own(e))) {
        WalkByIsExact(Plus(seen, Own(e)), rest + Children(e), positions[1..]);
      }
    }
  }

  lemma {:induction false} NothingIsWithin()
    ensures IsWithin(NOTHING) && StackTotals([]) == NOTHING
  {
  }

  /** Whatever the order of the walk: if it stops, the value is out of bounds, and if it empties the stack, within. */
  lemma {:induction false} EveryOrderDecides(value: Json, positions: seq<nat>)
    ensures match WalkBy(NOTHING, [Entry(value, 0)], positions)
            case Stopped => !IsWithin(TotalsOf(value, 0))
            case Left(_, left) => left == [] ==> IsWithin(TotalsOf(value, 0))
  {
    hide WalkBy, TotalsOf, IsWithin, Plus;
    NothingIsWithin();
    OneEntry(value, 0);
    PlusNothing(TotalsOf(value, 0));
    WalkByIsExact(NOTHING, [Entry(value, 0)], positions);
    if WalkBy(NOTHING, [Entry(value, 0)], positions).Left? {
      PlusNothing(WalkBy(NOTHING, [Entry(value, 0)], positions).seen);
    }
  }

  /** Totals that are too large stay too large. */
  lemma {:induction false} TooMuchStays(seen: Totals, rest: Totals)
    ensures IsWithin(Plus(seen, rest)) ==> IsWithin(seen)
  {
  }

  /** The field-name check of one object. */
  method CheckKeys(fields: seq<Field>) returns (ok: bool)
    ensures ok <==> LongestKey(fields) <= MAX_KEY_LENGTH
  {
    LongestIsWithin(fields);
    for i := 0 to |fields|
      invariant forall k :: 0 <= k < i ==> |fields[k].key| <= MAX_KEY_LENGTH
    {
      if |fields[i].key| > MAX_KEY_LENGTH {
        return false;
      }
    }
    ok := true;
  }

  /** The running counts with one more entry, or refusal. */
  method Count(seen: Totals, e: Entry) returns (ok: bool, next: Totals)
    requires IsWithin(seen)
    ensures next == Plus(seen, Own(e)) && (ok <==> IsWithin(next))
  {
    next := Plus(seen, Own(e));
    var nodes := seen.nodes + 1;
    if nodes > MAX_NODES || e.depth > MAX_DEPTH {
      return false, next;
    }
    if e.value.Arr? {
      ok := seen.items + |e.value.items| <= MAX_ARRAY_ITEMS;
    } else if e.value.Obj? {
      if seen.keys + |e.value.fields| > MAX_KEYS {
        return false, next;
      }
      ok := CheckKeys(e.value.fields);
    } else {
      ok := true;
    }
  }

  /** Pops one entry, counts it, and pushes its children. */
  method Step(seen: Totals, stack: seq<Entry>, ghost total: Totals) returns (ok: bool, next: Totals, left: seq<Entry>)
    requires stack != [] && IsWithin(seen) && Plus(seen, StackTotals(stack)) == total
    ensures ok ==> IsWithin(next) && Plus(next, StackTotals(left)) == total && StackTotals(left).nodes < StackTotals(stack).nodes
    ensures !ok ==> !IsWithin(total)
  {
    var rest, current := stack[..|stack| - 1], stack[|stack| - 1];
    WalkStep(seen, stack, |stack| - 1);
    assert Without(stack, |stack| - 1) == rest;
    ok, next := Count(seen, current);
    left := rest + Children(current);
    TooMuchStays(next, StackTotals(left));
  }

  /** The loop over the stack. */
  method Walk(start: seq<Entry>) returns (ok: bool)
    ensures ok <==> IsWithin(StackTotals(start))
  {
    var seen, stack := NOTHING, start;
    ghost var total := StackTotals(start);
    PlusNothing(total);
    while stack != []
      invariant Plus(seen, StackTotals(stack)) == total && IsWithin(seen)
      decreases StackTotals(stack).nodes
    {
      var within;
      within, seen, stack := Step(seen, stack, total);
      if !within {
        return false;
      }
    }
    PlusNothing(seen);
    ok := true;
  }

  /** validateJsonStructure */
  method ValidateJsonStructure(value: Json) returns (ok: bool)
    ensures ok <==> IsWithin(TotalsOf(value, 0))
  {
    OneEntry(value, 0);
    ok := Walk([Entry(value, 0)]);
  }
}
