/**
 bounded-xml.ts, lines 239-321: what the stack of open elements is for.

 An element tree has an event list: for an element its start, the lists of its
 children and its end, for a text the text. The events of a document are the list of
 exactly one tree of depth at most 128, whose self-closing elements have no children,
 with nothing but texts around it (`EventsAreOneTree`); and the stack accepts the list of every such tree, and no other
 event list (`NestsExactly`).
 */
module XmlTree {
  import opened Texts
  import opened XmlTag
  import opened BoundedXml

  datatype Tree = Node(name: Text, attributes: seq<Attribute>, selfClosing: bool, children: seq<Tree>) | Leaf(text: Text)

  /** The events of a tree, in document order. */
  function Serial(t: Tree): seq<Event>
    decreases t, 0
  {
    match t
    case Leaf(text) => [Characters(text)]
    case Node(name, attributes, selfClosing, children) => [Start(name, attributes, selfClosing)] + SerialAll(children) + [End(name)]
  }

  function SerialAll(trees: seq<Tree>): seq<Event>
    decreases trees, 1
  {
    if trees == [] then [] else Serial(trees[0]) + SerialAll(trees[1..])
  }

  function Depth(t: Tree): nat
    decreases t, 0
  {
    match t
    case Leaf(_) => 0
    case Node(_, _, _, children) => 1 + DepthAll(children)
  }

  function DepthAll(trees: seq<Tree>): nat
    decreases trees, 1
  {
    if trees == [] then 0 else Deeper(Depth(trees[0]), DepthAll(trees[1..]))
  }

  function Deeper(a: nat, b: nat): nat {
    if a < b then b else a
  }

  predicate AreTexts(events: seq<Event>) {
    forall i :: 0 <= i < |events| ==> events[i].Characters?
  }

  /** A tree within the depth limit, with the texts around it. */
  datatype Around = Around(before: seq<Event>, root: Tree, after: seq<Event>)

  predicate IsOneTree(a: Around) {
    a.root.Node? && Depth(a.root) <= MAX_DEPTH && AreTexts(a.before) && AreTexts(a.after)
  }

  function Listed(a: Around): seq<Event> {
    a.before + Serial(a.root) + a.after
  }

  function EventsIn(events: seq<Ranged>): (r: seq<Event>)
    ensures |r| == |events| && forall i :: 0 <= i < |r| ==> r[i] == events[i].event
  {
    if events == [] then [] else EventsIn(events[..|events| - 1]) + [events[|events| - 1].event]
  }

  /** The stack over bare events. */
  function Run(n: Nesting, events: seq<Event>): Nesting {
    if events == [] then n else Enter(Run(n, events[..|events| - 1]), events[|events| - 1])
  }

  lemma {:induction false} RunIsNest(n: Nesting, events: seq<Ranged>)
    ensures Run(n, EventsIn(events)) == NestFrom(n, events)
  {
    if events != [] {
      var front := events[..|events| - 1];
      RunIsNest(n, front);
      assert EventsIn(events)[..|events| - 1] == EventsIn(front);
    }
  }

  lemma {:induction false} RunConcat(n: Nesting, a: seq<Event>, b: seq<Event>)
    ensures Run(n, a + b) == Run(Run(n, a), b)
    decreases |b|
  {
    if b == [] {
      assert a + b == a;
    } else {
      assert (a + b)[..|a + b| - 1] == a + b[..|b| - 1];
      RunConcat(n, a, b[..|b| - 1]);
    }
  }

  lemma {:induction false} RunOne(n: Nesting, e: Event)
    ensures Run(n, [e]) == Enter(n, e)
  {
    assert [e][..0] == [];
  }

  lemma {:induction false} TextsKeep(n: Nesting, events: seq<Event>)
    requires AreTexts(events)
    ensures Run(n, events) == n
  {
    if events != [] {
      TextsKeep(n, events[..|events| - 1]);
    }
  }

  // ----- the stack accepts the list of every tree -----

  /** Inside an element, a tree that fits leaves the stack as it was. */
  lemma {:induction false} TreeKeepsStack(stack: seq<Text>, roots: nat, t: Tree)
    requires stack != [] && roots <= 1 && |stack| + Depth(t) <= MAX_DEPTH
    ensures Run(Nested(stack, roots), Serial(t)) == Nested(stack, roots)
    decreases t, 0
  {
    match t
    case Leaf(text) => RunOne(Nested(stack, roots), Characters(text));
    case Node(name, attributes, selfClosing, children) =>
      TreesKeepStack(stack + [name], roots, children);
      ElementRuns(Nested(stack, roots), Nested(stack + [name], roots), t);
      assert (stack + [name])[..|stack|] == stack;
  }

  lemma {:induction false} TreesKeepStack(stack: seq<Text>, roots: nat, trees: seq<Tree>)
    requires stack != [] && roots <= 1 && |stack| + DepthAll(trees) <= MAX_DEPTH
    ensures Run(Nested(stack, roots), SerialAll(trees)) == Nested(stack, roots)
    decreases trees, 1
  {
    if trees != [] {
      TreeKeepsStack(stack, roots, trees[0]);
      TreesKeepStack(stack, roots, trees[1..]);
      RunConcat(Nested(stack, roots), Serial(trees[0]), SerialAll(trees[1..]));
    }
  }

  lemma {:induction false} ElementRuns(n: Nesting, inside: Nesting, t: Tree)
    requires t.Node? && Enter(n, Start(t.name, t.attributes, t.selfClosing)) == inside
    requires Run(inside, SerialAll(t.children)) == inside
    ensures Run(n, Serial(t)) == Enter(inside, End(t.name))
  {
    var start, children, end := Start(t.name, t.attributes, t.selfClosing), SerialAll(t.children), End(t.name);
    RunOne(n, start);
    RunConcat(n, [start], children);
    RunConcat(n, [start] + children, [end]);
    RunOne(inside, end);
  }

  lemma {:induction false} OneTreeNests(a: Around)
    requires IsOneTree(a)
    ensures Run(Nested([], 0), Listed(a)) == Nested([], 1)
  {
    var n, t := Nested([], 0), a.root;
    TextsKeep(n, a.before);
    assert [] + [t.name] == [t.name];
    TreesKeepStack([t.name], 1, t.children);
    ElementRuns(n, Nested([t.name], 1), t);
    assert [t.name][..0] == [];
    RunConcat(n, a.before, Serial(t));
    RunConcat(n, a.before + Serial(t), a.after);
    TextsKeep(Nested([], 1), a.after);
  }

  // ----- and nothing else -----

  /** An open element with the children it has so far. */
  datatype Frame = Frame(name: Text, attributes: seq<Attribute>, selfClosing: bool, children: seq<Tree>)

  /** What the events so far have built: the texts before the root, then the open elements or the finished root. */
  datatype Built = Before(texts: seq<Event>) | Open(texts: seq<Event>, frames: seq<Frame>) | After(around: Around)

  function SerialFrames(frames: seq<Frame>): seq<Event> {
    if frames == [] then []
    else
      var f := frames[|frames| - 1];
      SerialFrames(frames[..|frames| - 1]) + [Start(f.name, f.attributes, f.selfClosing)] + SerialAll(f.children)
  }

  function SoFar(b: Built): seq<Event> {
    match b
    case Before(texts) => texts
    case Open(texts, frames) => texts + SerialFrames(frames)
    case After(around) => Listed(around)
  }

  function Names(frames: seq<Frame>): (r: seq<Text>)
    ensures |r| == |frames| && forall i :: 0 <= i < |r| ==> r[i] == frames[i].name
  {
    if frames == [] then [] else Names(frames[..|frames| - 1]) + [frames[|frames| - 1].name]
  }

  /** No open element has children too deep for where it stands. */
  predicate Fits(frames: seq<Frame>) {
    forall i :: 0 <= i < |frames| ==> DepthAll(frames[i].children) < MAX_DEPTH - i
  }

  lemma {:induction false} FitsGrows(front: seq<Frame>, f: Frame)
    ensures Fits(front + [f]) <==> Fits(front) && DepthAll(f.children) < MAX_DEPTH - |front|
  {
    var frames := front + [f];
    if Fits(frames) {
      assert frames[|front|] == f;
      assert forall i :: 0 <= i < |front| ==> front[i] == frames[i];
    }
  }

  /** What is built accounts for the state of the stack, and is as deep as the stack allows. */
  predicate Builds(b: Built, n: Nesting) {
    match b
    case Before(texts) => AreTexts(texts) && n == Nested([], 0)
    case Open(texts, frames) =>
      AreTexts(texts) && frames != [] && |frames| <= MAX_DEPTH && Fits(frames) && n == Nested(Names(frames), 1)
    case After(around) => IsOneTree(around) && n == Nested([], 1)
  }

  lemma {:induction false} SerialAllGrows(trees: seq<Tree>, t: Tree)
    ensures SerialAll(trees + [t]) == SerialAll(trees) + Serial(t)
    ensures DepthAll(trees + [t]) == Deeper(DepthAll(trees), Depth(t))
  {
    if trees == [] {
      assert trees + [t] == [t] && [t][1..] == [];
      assert SerialAll([t]) == Serial(t) + SerialAll([]);
    } else {
      assert (trees + [t])[1..] == trees[1..] + [t];
      SerialAllGrows(trees[1..], t);
      Regroup(Serial(trees[0]), SerialAll(trees[1..]), Serial(t));
    }
  }

  lemma {:induction false} Regroup(a: seq<Event>, b: seq<Event>, c: seq<Event>)
    ensures a + (b + c) == a + b + c
  {
  }

  function AddChild(f: Frame, t: Tree): Frame {
    f.(children := f.children + [t])
  }

  function Closed(f: Frame): Tree {
    Node(f.name, f.attributes, f.selfClosing, f.children)
  }

  /** One more event. */
  function Extend(b: Built, e: Event): Built {
    match b
    case Before(texts) =>
      (match e
       case Characters(_) => Before(texts + [e])
       case Start(name, attributes, selfClosing) => Open(texts, [Frame(name, attributes, selfClosing, [])])
       case End(_) => b)
    case Open(texts, frames) =>
      if frames == [] then b
      else
        var front, last := frames[..|frames| - 1], frames[|frames| - 1];
        (match e
         case Characters(text) => Open(texts, front + [AddChild(last, Leaf(text))])
         case Start(name, attributes, selfClosing) => Open(texts, frames + [Frame(name, attributes, selfClosing, [])])
         case End(_) =>
           if front == [] then After(Around(texts, Closed(last), []))
           else Open(texts, front[..|front| - 1] + [AddChild(front[|front| - 1], Closed(last))]))
    case After(around) => After(around.(after := around.after + [e]))
  }

  lemma {:induction false} FramesGrow(frames: seq<Frame>, f: Frame)
    ensures SerialFrames(frames + [f]) == SerialFrames(frames) + [Start(f.name, f.attributes, f.selfClosing)] + SerialAll(f.children)
    ensures Names(frames + [f]) == Names(frames) + [f.name]
  {
    assert (frames + [f])[..|frames|] == frames;
  }

  lemma {:induction false} ChildGrows(frames: seq<Frame>, f: Frame, t: Tree)
    ensures SerialFrames(frames + [AddChild(f, t)]) == SerialFrames(frames + [f]) + Serial(t)
    ensures Names(frames + [AddChild(f, t)]) == Names(frames + [f])
    ensures DepthAll(AddChild(f, t).children) == Deeper(DepthAll(f.children), Depth(t))
  {
    FramesGrow(frames, f);
    FramesGrow(frames, AddChild(f, t));
    SerialAllGrows(f.children, t);
    Regroup(SerialFrames(frames) + [Start(f.name, f.attributes, f.selfClosing)], SerialAll(f.children), Serial(t));
  }

  lemma {:induction false} RootOpens(texts: seq<Event>, f: Frame)
    requires AreTexts(texts) && f.children == []
    ensures Builds(Open(texts, [f]), Nested([f.name], 1))
    ensures SoFar(Open(texts, [f])) == texts + [Start(f.name, f.attributes, f.selfClosing)]
  {
    EmptyIsShallow();
    FramesGrow([], f);
    FitsGrows([], f);
    assert [] + [f] == [f];
  }

  lemma {:induction false} ChildOpens(texts: seq<Event>, frames: seq<Frame>, f: Frame)
    requires AreTexts(texts) && f.children == [] && Fits(frames) && |frames| < MAX_DEPTH
    ensures Builds(Open(texts, frames + [f]), Nested(Names(frames) + [f.name], 1))
    ensures SoFar(Open(texts, frames + [f])) == SoFar(Open(texts, frames)) + [Start(f.name, f.attributes, f.selfClosing)]
  {
    hide Fits, DepthAll;
    EmptyIsShallow();
    FramesGrow(frames, f);
    FitsGrows(frames, f);
    Regroup(texts, SerialFrames(frames), [Start(f.name, f.attributes, f.selfClosing)]);
  }

  lemma {:induction false} ExtendStart(b: Built, n: Nesting, e: Event)
    requires Builds(b, n) && e.Start? && Enter(n, e).Nested?
    ensures Builds(Extend(b, e), Enter(n, e)) && SoFar(Extend(b, e)) == SoFar(b) + [e]
  {
    hide Fits, SerialFrames, Serial, SerialAll;
    var f := Frame(e.name, e.attributes, e.selfClosing, []);
    match b
    case Before(texts) => RootOpens(texts, f);
    case Open(texts, frames) => ChildOpens(texts, frames, f);
    case After(_) =>
  }

  lemma {:induction false} EmptyIsShallow()
    ensures DepthAll([]) == 0 && SerialAll([]) == [] && Fits([])
  {
  }

  lemma {:induction false} TextJoins(texts: seq<Event>, front: seq<Frame>, last: Frame, text: Text)
    requires AreTexts(texts) && Fits(front + [last]) && |front| < MAX_DEPTH
    ensures Builds(Open(texts, front + [AddChild(last, Leaf(text))]), Nested(Names(front + [last]), 1))
    ensures SoFar(Open(texts, front + [AddChild(last, Leaf(text))])) == SoFar(Open(texts, front + [last])) + [Characters(text)]
  {
    hide Fits, DepthAll, SerialAll, SerialFrames, Serial;
    ChildGrows(front, last, Leaf(text));
    LeafIsShallow(text);
    FitsGrows(front, last);
    FitsGrows(front, AddChild(last, Leaf(text)));
    Regroup(texts, SerialFrames(front + [last]), [Characters(text)]);
  }

  lemma {:induction false} ExtendText(b: Built, n: Nesting, e: Event)
    requires Builds(b, n) && e.Characters?
    ensures Builds(Extend(b, e), Enter(n, e)) && SoFar(Extend(b, e)) == SoFar(b) + [e]
  {
    hide Fits, DepthAll, SerialAll, SerialFrames, Serial;
    match b
    case Before(texts) =>
    case Open(texts, frames) =>
      assert frames == frames[..|frames| - 1] + [frames[|frames| - 1]];
      TextJoins(texts, frames[..|frames| - 1], frames[|frames| - 1], e.text);
    case After(around) =>
      Regroup(around.before + Serial(around.root), around.after, [e]);
  }

  lemma {:induction false} LeafIsShallow(text: Text)
    ensures Serial(Leaf(text)) == [Characters(text)] && Depth(Leaf(text)) == 0
  {
  }

  lemma {:induction false} ParentCloses(texts: seq<Event>, rest: seq<Frame>, parent: Frame, last: Frame)
    requires AreTexts(texts) && Fits(rest + [parent] + [last]) && |rest| + 2 <= MAX_DEPTH
    ensures Builds(Open(texts, rest + [AddChild(parent, Closed(last))]), Nested(Names(rest + [parent]), 1))
    ensures SoFar(Open(texts, rest + [AddChild(parent, Closed(last))])) == SoFar(Open(texts, rest + [parent] + [last])) + [End(last.name)]
  {
    hide Fits, DepthAll, SerialAll, SerialFrames, Serial;
    var front := rest + [parent];
    assert front[..|front| - 1] == rest;
    ChildCloses(texts, front, last);
    FitsGrows(front, last);
    FitsGrows(rest, parent);
    FitsGrows(rest, AddChild(parent, Closed(last)));
  }

  lemma {:induction false} LastCloses(texts: seq<Event>, last: Frame)
    requires AreTexts(texts) && Fits([last])
    ensures Builds(After(Around(texts, Closed(last), [])), Nested([], 1))
    ensures SoFar(After(Around(texts, Closed(last), []))) == SoFar(Open(texts, [last])) + [End(last.name)]
  {
    RootCloses(texts, last);
    assert [last][0] == last;
  }

  /** What an accepted end event closes. */
  lemma {:induction false} EndCloses(b: Built, n: Nesting, e: Event)
    requires Builds(b, n) && e.End? && Enter(n, e).Nested?
    ensures b.Open? && b.frames != [] && e.name == b.frames[|b.frames| - 1].name
    ensures Enter(n, e) == Nested(Names(b.frames[..|b.frames| - 1]), 1)
  {
    assert Names(b.frames)[..|b.frames| - 1] == Names(b.frames[..|b.frames| - 1]);
  }

  lemma {:induction false} ExtendEnd(b: Built, n: Nesting, e: Event)
    requires Builds(b, n) && e.End? && Enter(n, e).Nested?
    ensures Builds(Extend(b, e), Enter(n, e)) && SoFar(Extend(b, e)) == SoFar(b) + [e]
  {
    hide Fits, DepthAll, SerialAll, SerialFrames, Serial, Listed, SoFar, Enter;
    EndCloses(b, n, e);
    var front, last := b.frames[..|b.frames| - 1], b.frames[|b.frames| - 1];
    assert b.frames == front + [last];
    if front == [] {
      assert front + [last] == [last];
      LastCloses(b.texts, last);
    } else {
      assert front == front[..|front| - 1] + [front[|front| - 1]];
      ParentCloses(b.texts, front[..|front| - 1], front[|front| - 1], last);
    }
  }

  lemma {:induction false} RootCloses(texts: seq<Event>, f: Frame)
    ensures Listed(Around(texts, Closed(f), [])) == texts + SerialFrames([f]) + [End(f.name)]
    ensures Depth(Closed(f)) == 1 + DepthAll(f.children)
  {
    var start, children, end := [Start(f.name, f.attributes, f.selfClosing)], SerialAll(f.children), [End(f.name)];
    FramesGrow([], f);
    assert [] + [f] == [f];
    assert SerialFrames([f]) == start + children;
    Regroup(texts, start + children, end);
    assert texts + (start + children + end) + [] == texts + (start + children + end);
  }

  lemma {:induction false} ChildCloses(texts: seq<Event>, front: seq<Frame>, f: Frame)
    requires front != []
    ensures var parent := front[|front| - 1];
            var closed := front[..|front| - 1] + [AddChild(parent, Closed(f))];
      && texts + SerialFrames(closed) == texts + SerialFrames(front + [f]) + [End(f.name)]
      && Names(closed) == Names(front)
      && DepthAll(AddChild(parent, Closed(f)).children) == Deeper(DepthAll(parent.children), 1 + DepthAll(f.children))
  {
    hide DepthAll, SerialAll, SerialFrames, Names;
    var rest, parent := front[..|front| - 1], front[|front| - 1];
    var start, children, end := [Start(f.name, f.attributes, f.selfClosing)], SerialAll(f.children), [End(f.name)];
    assert front == rest + [parent];
    ChildGrows(rest, parent, Closed(f));
    SerialAllGrows(parent.children, Closed(f));
    FramesGrow(front, f);
    var s := SerialFrames(front);
    assert s + (start + children + end) == s + start + children + end;
    Regroup(texts, s + start + children, end);
  }

  /** Every event list that the stack accepts so far has been built into open elements or one tree. */
  lemma {:induction false} ExtendKeeps(b: Built, n: Nesting, e: Event)
    requires Builds(b, n) && Enter(n, e).Nested?
    ensures Builds(Extend(b, e), Enter(n, e)) && SoFar(Extend(b, e)) == SoFar(b) + [e]
  {
    hide Builds, SoFar, Extend;
    match e
    case Start(_, _, _) => ExtendStart(b, n, e);
    case Characters(_) => ExtendText(b, n, e);
    case End(_) => ExtendEnd(b, n, e);
  }

  lemma {:induction false} AcceptedIsBuilt(events: seq<Event>) returns (b: Built)
    requires Run(Nested([], 0), events).Nested?
    ensures Builds(b, Run(Nested([], 0), events)) && SoFar(b) == events
  {
    if events == [] {
      b := Before([]);
    } else {
      var front, e := events[..|events| - 1], events[|events| - 1];
      var before := AcceptedIsBuilt(front);
      ExtendKeeps(before, Run(Nested([], 0), front), e);
      b := Extend(before, e);
      assert events == front + [e];
    }
  }

  /** The stack accepts exactly the event lists of one tree within the depth limit. */
  lemma {:induction false} NestsExactly(events: seq<Event>)
    ensures Run(Nested([], 0), events) == Nested([], 1) <==> exists a :: IsOneTree(a) && Listed(a) == events
  {
    if Run(Nested([], 0), events) == Nested([], 1) {
      var b := AcceptedIsBuilt(events);
      assert IsOneTree(b.around) && Listed(b.around) == events;
    }
    if a :| IsOneTree(a) && Listed(a) == events {
      OneTreeNests(a);
    }
  }

  // ----- the tree is the only one -----

  lemma {:induction false} Cancel(a: seq<Event>, b: seq<Event>, c: seq<Event>, d: seq<Event>)
    requires a + b == c + d && |a| == |c|
    ensures a == c && b == d
  {
    assert (a + b)[..|a|] == a && (c + d)[..|a|] == c;
    assert (a + b)[|a|..] == b && (c + d)[|a|..] == d;
  }

  lemma {:induction false} SerialStarts(t: Tree, rest: seq<Event>)
    ensures Serial(t) != [] && (Serial(t) + rest)[0] == (if t.Leaf? then Characters(t.text) else Start(t.name, t.attributes, t.selfClosing))
  {
  }

  lemma {:induction false} SameTree(a: Tree, x: seq<Event>, b: Tree, y: seq<Event>)
    requires Serial(a) + x == Serial(b) + y
    ensures a == b && x == y
    decreases a, 0
  {
    SerialStarts(a, x);
    SerialStarts(b, y);
    if a.Leaf? {
      Cancel(Serial(a), x, Serial(b), y);
    } else {
      var start := [Start(a.name, a.attributes, a.selfClosing)];
      var insideA, insideB := SerialAll(a.children) + ([End(a.name)] + x), SerialAll(b.children) + ([End(b.name)] + y);
      assert Serial(a) + x == start + insideA;
      assert Serial(b) + y == start + insideB;
      Cancel(start, insideA, start, insideB);
      SameTrees(a.children, [End(a.name)] + x, b.children, [End(b.name)] + y);
      Cancel([End(a.name)], x, [End(b.name)], y);
    }
  }

  lemma {:induction false} FirstOf(trees: seq<Tree>, x: seq<Event>)
    requires x != []
    ensures SerialAll(trees) + x != []
    ensures if trees == [] then SerialAll(trees) + x == x
            else !(SerialAll(trees) + x)[0].End? && SerialAll(trees) + x == Serial(trees[0]) + (SerialAll(trees[1..]) + x)
  {
    if trees != [] {
      SerialStarts(trees[0], SerialAll(trees[1..]) + x);
      Regroup(Serial(trees[0]), SerialAll(trees[1..]), x);
    }
  }

  lemma {:induction false} SameTrees(a: seq<Tree>, x: seq<Event>, b: seq<Tree>, y: seq<Event>)
    requires SerialAll(a) + x == SerialAll(b) + y
    requires x != [] && y != [] && x[0].End? && y[0].End?
    ensures a == b && x == y
    decreases a, 1
  {
    FirstOf(a, x);
    FirstOf(b, y);
    if a != [] {
      SameTree(a[0], SerialAll(a[1..]) + x, b[0], SerialAll(b[1..]) + y);
      SameTrees(a[1..], x, b[1..], y);
      assert a == [a[0]] + a[1..] && b == [b[0]] + b[1..];
    }
  }

  lemma {:induction false} TextsFirst(a: seq<Event>, x: seq<Event>)
    requires AreTexts(a) && x != [] && !x[0].Characters?
    ensures !(a + x)[|a|].Characters? && forall i :: 0 <= i < |a| ==> (a + x)[i].Characters?
  {
  }

  lemma {:induction false} SameTexts(a: seq<Event>, x: seq<Event>, b: seq<Event>, y: seq<Event>)
    requires a + x == b + y && AreTexts(a) && AreTexts(b)
    requires x != [] && y != [] && !x[0].Characters? && !y[0].Characters?
    ensures a == b && x == y
  {
    TextsFirst(a, x);
    TextsFirst(b, y);
    Cancel(a, x, b, y);
  }

  /** An event list is the list of at most one tree. */
  lemma {:induction false} OneTreeIsUnique(a: Around, b: Around)
    requires IsOneTree(a) && IsOneTree(b) && Listed(a) == Listed(b)
    ensures a == b
  {
    var restA, restB := Serial(a.root) + a.after, Serial(b.root) + b.after;
    Regroup(a.before, Serial(a.root), a.after);
    Regroup(b.before, Serial(b.root), b.after);
    SerialStarts(a.root, a.after);
    SerialStarts(b.root, b.after);
    SameTexts(a.before, restA, b.before, restB);
    SameTree(a.root, a.after, b.root, b.after);
  }

  // ----- a self-closing element has no children -----

  /** Every self-closing start is followed by its own end. */
  predicate ClosesAtOnce(events: seq<Event>) {
    events == [] || (IsClosed(events) && ClosesAtOnce(events[1..]))
  }

  predicate IsClosed(events: seq<Event>)
    requires events != []
  {
    events[0].Start? && events[0].selfClosing ==> |events| > 1 && events[1] == End(events[0].name)
  }

  predicate ClosedAreEmpty(t: Tree)
    decreases t, 0
  {
    t.Node? ==> (t.selfClosing ==> t.children == []) && AllClosedAreEmpty(t.children)
  }

  predicate AllClosedAreEmpty(trees: seq<Tree>)
    decreases trees, 1
  {
    trees != [] ==> ClosedAreEmpty(trees[0]) && AllClosedAreEmpty(trees[1..])
  }

  lemma {:induction false} OneFirst(e: Event, rest: seq<Event>)
    ensures ([e] + rest)[0] == e && ([e] + rest)[1..] == rest
  {
  }

  lemma {:induction false} ClosedTree(t: Tree, x: seq<Event>)
    requires ClosesAtOnce(Serial(t) + x)
    ensures ClosedAreEmpty(t) && ClosesAtOnce(x)
    decreases t, 0
  {
    match t
    case Leaf(text) =>
      OneFirst(Characters(text), x);
    case Node(name, attributes, selfClosing, children) =>
      var last := [End(name)] + x;
      OneFirst(Start(name, attributes, selfClosing), SerialAll(children) + last);
      assert Serial(t) + x == [Start(name, attributes, selfClosing)] + (SerialAll(children) + last);
      FirstOf(children, last);
      ClosedTrees(children, last);
      OneFirst(End(name), x);
  }

  lemma {:induction false} ClosedTrees(trees: seq<Tree>, x: seq<Event>)
    requires x != [] && ClosesAtOnce(SerialAll(trees) + x)
    ensures AllClosedAreEmpty(trees) && ClosesAtOnce(x)
    decreases trees, 1
  {
    FirstOf(trees, x);
    if trees != [] {
      ClosedTree(trees[0], SerialAll(trees[1..]) + x);
      ClosedTrees(trees[1..], x);
    }
  }

  lemma {:induction false} ClosesConcat(a: seq<Event>, b: seq<Event>)
    requires ClosesAtOnce(a) && ClosesAtOnce(b)
    ensures ClosesAtOnce(a + b)
  {
    if a == [] {
      assert a + b == b;
    } else {
      assert (a + b)[1..] == a[1..] + b && IsClosed(a);
      ClosesConcat(a[1..], b);
    }
  }

  lemma {:induction false} ClosesSuffix(a: seq<Event>, b: seq<Event>)
    requires ClosesAtOnce(a + b)
    ensures ClosesAtOnce(b)
  {
    if a == [] {
      assert a + b == b;
    } else {
      assert (a + b)[1..] == a[1..] + b;
      ClosesSuffix(a[1..], b);
    }
  }

  lemma {:induction false} EventsInConcat(a: seq<Ranged>, b: seq<Ranged>)
    ensures EventsIn(a + b) == EventsIn(a) + EventsIn(b)
  {
  }

  lemma {:induction false} TokenCloses(xml: Text, declaration: Text -> bool, t: Token)
    requires IsToken(xml, declaration, t)
    ensures ClosesAtOnce(EventsIn(t.events))
  {
    var events := EventsIn(t.events);
    assert |events| == 1 ==> events[1..] == [];
    assert |events| == 2 ==> |events[1..]| == 1 && events[1..][1..] == [];
  }

  lemma {:induction false} TokensClose(xml: Text, declaration: Text -> bool, tokens: seq<Token>)
    requires AreTokens(xml, declaration, tokens)
    ensures ClosesAtOnce(EventsIn(EventsOf(tokens)))
  {
    if tokens != [] {
      var front, t := tokens[..|tokens| - 1], tokens[|tokens| - 1];
      TokensClose(xml, declaration, front);
      TokenCloses(xml, declaration, t);
      EventsInConcat(EventsOf(front), t.events);
      ClosesConcat(EventsIn(EventsOf(front)), EventsIn(t.events));
    }
  }

  /** The events of a document are the list of exactly one tree of depth at most 128, with only texts around it; a self-closing element has no children. */
  lemma {:induction false} EventsAreOneTree(xml: Text, declaration: Text -> bool, tokens: seq<Token>) returns (a: Around)
    requires IsDocument(xml, declaration, tokens)
    ensures IsOneTree(a) && Listed(a) == EventsIn(EventsOf(tokens)) && ClosedAreEmpty(a.root)
    ensures forall other :: IsOneTree(other) && Listed(other) == EventsIn(EventsOf(tokens)) ==> other == a
  {
    var events := EventsIn(EventsOf(tokens));
    NestIsFromEvents(xml, tokens);
    RunIsNest(Nested([], 0), EventsOf(tokens));
    var b := AcceptedIsBuilt(events);
    a := b.around;
    TokensClose(xml, declaration, tokens);
    Regroup(a.before, Serial(a.root), a.after);
    ClosesSuffix(a.before, Serial(a.root) + a.after);
    ClosedTree(a.root, a.after);
    forall other | IsOneTree(other) && Listed(other) == events ensures other == a {
      OneTreeIsUnique(other, a);
    }
  }
}
