/** Bookmarks of makepdf/core/toc.py: a stack turns a flat list of levels into a PDF outline, and a
    recursive walk over the reader's nested lists flattens it again. */
module Outline {
  import opened Options

  /** One requested or extracted bookmark; pages count from 1. */
  datatype Entry = Entry(title: string, page: int, level: int)

  /** An outline item with its /First child and /Next sibling (section 12.3.3 of ISO 32000-1); pages
      count from 0 here. `id` is the handle that add_outline_item returns. */
  datatype Tree = End | Item(id: nat, title: string, page: int, first: Tree, next: Tree)

  /** The nested list that the reader makes of an outline: destinations, each followed by the list of
      its children if it has any. */
  datatype Nested = Nil | Dest(title: string, page: int, rest: Nested) | Sub(items: Nested, rest: Nested)

  function Read(t: Tree): Nested {
    match t
    case End => Nil
    case Item(_, title, page, first, next) =>
      Dest(title, page, if first == End then Read(next) else Sub(Read(first), Read(next)))
  }

  function Walk(items: Nested, level: int): seq<Entry> {
    match items
    case Nil => []
    case Dest(title, page, rest) => [Entry(title, page + 1, level)] + Walk(rest, level)
    case Sub(inner, rest) => Walk(inner, level + 1) + Walk(rest, level)
  }

  /** extract_toc of a document with this outline. */
  function Extract(t: Tree): seq<Entry> {
    Walk(Read(t), 0)
  }

  // ---------------------------------------------------------------- the writer

  function AddLast(t: Tree, item: Tree): Tree {
    match t
    case End => item
    case Item(_, _, _, _, next) => t.(next := AddLast(next, item))
  }

  /** Makes `item` the last child of the item with handle `parent`, wherever that is. */
  function AddUnder(t: Tree, parent: nat, item: Tree): Tree {
    match t
    case End => End
    case Item(id, _, _, first, next) =>
      if id == parent then t.(first := AddLast(first, item))
      else t.(first := AddUnder(first, parent, item), next := AddUnder(next, parent, item))
  }

  function AddItem(t: Tree, parent: Option<nat>, item: Tree): Tree {
    if parent.Some? then AddUnder(t, parent.value, item) else AddLast(t, item)
  }

  // ---------------------------------------------------------------- the reference: nearest smaller level

  /** The nearest entry before `k` whose level is smaller than `level`, searching down from k - 1. */
  function NearestSmaller(entries: seq<Entry>, k: nat, level: int): (p: Option<nat>)
    requires k <= |entries|
    ensures p.Some? ==> p.value < k && entries[p.value].level < level
  {
    if k == 0 then None
    else if entries[k - 1].level < level then Some(k - 1)
    else NearestSmaller(entries, k - 1, level)
  }

  /** No entry between the nearest smaller one and `k` has a smaller level. */
  lemma {:induction false} NearestIsNearest(entries: seq<Entry>, k: nat, level: int, i: nat)
    requires i < k <= |entries|
    requires var p := NearestSmaller(entries, k, level); p.Some? ==> p.value < i
    ensures entries[i].level >= level
    decreases k
  {
    if i < k - 1 { NearestIsNearest(entries, k - 1, level, i); }
  }

  function Parent(entries: seq<Entry>, k: nat): Option<nat>
    requires k < |entries|
  {
    NearestSmaller(entries, k, entries[k].level)
  }

  /** The ancestors of entry k by the nearest-smaller rule, outermost first, and k itself. */
  function Chain(entries: seq<Entry>, k: nat): seq<nat>
    requires k < |entries|
    ensures Chain(entries, k) != [] && Chain(entries, k)[|Chain(entries, k)| - 1] == k
  {
    (if Parent(entries, k).Some? then Chain(entries, Parent(entries, k).value) else []) + [k]
  }

  /** The length of the parent chain. */
  function Depth(entries: seq<Entry>, k: nat): nat
    requires k < |entries|
  {
    if Parent(entries, k).Some? then Depth(entries, Parent(entries, k).value) + 1 else 0
  }

  /** What the bookmarks should come back as: the same titles and pages with depths for levels. */
  function Normalised(entries: seq<Entry>): seq<Entry> {
    seq(|entries|, k requires 0 <= k < |entries| => Entry(entries[k].title, entries[k].page, Depth(entries, k)))
  }

  function Leaf(id: nat, e: Entry): Tree {
    Item(id, e.title, e.page - 1, End, End)
  }

  /** The outline of the first n entries, every parent being the nearest smaller entry. */
  function Build(entries: seq<Entry>, n: nat): Tree
    requires n <= |entries|
  {
    if n == 0 then End
    else AddItem(Build(entries, n - 1), Parent(entries, n - 1), Leaf(n - 1, entries[n - 1]))
  }

  // ---------------------------------------------------------------- the right spine

  /** The handles of the last item of each open level, outermost first. */
  function Spine(t: Tree): seq<nat> {
    match t
    case End => []
    case Item(id, _, _, first, next) => if next == End then [id] + Spine(first) else Spine(next)
  }

  function Ids(t: Tree): set<nat> {
    match t
    case End => {}
    case Item(id, _, _, first, next) => {id} + Ids(first) + Ids(next)
  }

  predicate Unique(t: Tree) {
    match t
    case End => true
    case Item(id, _, _, first, next) =>
      id !in Ids(first) && id !in Ids(next) && Ids(first) !! Ids(next) && Unique(first) && Unique(next)
  }

  /** Insertion at depth d of the spine. */
  function AddAt(t: Tree, d: nat, item: Tree): Tree {
    match t
    case End => item
    case Item(_, _, _, first, next) =>
      if next != End then t.(next := AddAt(next, d, item))
      else if d == 0 then t.(next := item)
      else t.(first := AddAt(first, d - 1, item))
  }

  lemma SpineIsInside(t: Tree, p: nat)
    requires p in Spine(t)
    ensures p in Ids(t)
  {
  }

  lemma AddLastIsAddAt(t: Tree, item: Tree)
    ensures AddLast(t, item) == AddAt(t, 0, item)
  {
  }

  lemma AddUnderAbsent(t: Tree, p: nat, item: Tree)
    requires p !in Ids(t)
    ensures AddUnder(t, p, item) == t
  {
  }

  /** Adding under the d-th spine item is insertion one level below it. */
  lemma {:induction false} AddUnderIsAddAt(t: Tree, d: nat, item: Tree)
    requires Unique(t) && d < |Spine(t)|
    ensures AddUnder(t, Spine(t)[d], item) == AddAt(t, d + 1, item)
  {
    var p := Spine(t)[d];
    if t.next != End {
      SpineIsInside(t.next, p);
      AddUnderAbsent(t.first, p, item);
      AddUnderIsAddAt(t.next, d, item);
    } else if d == 0 {
      AddLastIsAddAt(t.first, item);
    } else {
      assert Spine(t.first)[d - 1] == p;
      SpineIsInside(t.first, p);
      AddUnderIsAddAt(t.first, d - 1, item);
    }
  }

  /** Insertion at depth d closes the deeper levels and opens the new item. */
  lemma {:induction false} AddAtSpine(t: Tree, d: nat, id: nat, title: string, page: int)
    requires d <= |Spine(t)|
    ensures Spine(AddAt(t, d, Item(id, title, page, End, End))) == Spine(t)[..d] + [id]
    ensures Ids(AddAt(t, d, Item(id, title, page, End, End))) == Ids(t) + {id}
    ensures Unique(t) && id !in Ids(t) ==> Unique(AddAt(t, d, Item(id, title, page, End, End)))
    decreases t
  {
    if t != End {
      if t.next != End {
        AddAtSpine(t.next, d, id, title, page);
        AddAtNotEnd(t.next, d, Item(id, title, page, End, End));
      } else if d > 0 {
        AddAtSpine(t.first, d - 1, id, title, page);
        assert Spine(t)[..d] == [t.id] + Spine(t.first)[..d - 1];
      } else {
        assert Spine(Item(id, title, page, End, End)) == [id] + Spine(End);
      }
    }
  }

  lemma AddAtNotEnd(t: Tree, d: nat, item: Tree)
    requires t != End || item != End
    ensures AddAt(t, d, item) != End
  {
  }

  lemma WalkItem(t: Tree, level: int)
    requires t != End
    ensures Walk(Read(t), level) ==
            [Entry(t.title, t.page + 1, level)] + Walk(Read(t.first), level + 1) + Walk(Read(t.next), level)
  {
    assert Walk(Read(End), level + 1) == [];
  }

  /** Insertion at depth d appends one entry of that depth to the flattened outline. */
  lemma {:induction false} AddAtWalk(t: Tree, d: nat, item: Tree, level: int)
    requires d <= |Spine(t)| && item.Item? && item.first == End && item.next == End
    ensures Walk(Read(AddAt(t, d, item)), level) == Walk(Read(t), level) + [Entry(item.title, item.page + 1, level + d)]
    decreases t
  {
    WalkItem(item, level);
    if t != End {
      WalkItem(t, level);
      WalkItem(AddAt(t, d, item), level);
      if t.next != End {
        AddAtWalk(t.next, d, item, level);
      } else if d > 0 {
        AddAtWalk(t.first, d - 1, item, level + 1);
      }
    }
  }

  // ---------------------------------------------------------------- the parent is on the spine

  lemma {:induction false} ChainLength(entries: seq<Entry>, k: nat)
    requires k < |entries|
    ensures |Chain(entries, k)| == Depth(entries, k) + 1
    decreases k
  {
    if Parent(entries, k).Some? { ChainLength(entries, Parent(entries, k).value); }
  }

  /** Walking the chain of q down to the first level below `level` finds the nearest smaller entry. */
  lemma {:induction false} NearestIsOnChain(entries: seq<Entry>, q: nat, k: nat, level: int)
    requires q < k <= |entries| && forall i :: q < i < k ==> entries[i].level >= level
    ensures var p := NearestSmaller(entries, k, level);
            p.Some? ==> p.value <= q && |Chain(entries, p.value)| <= |Chain(entries, q)|
                        && Chain(entries, q)[..|Chain(entries, p.value)|] == Chain(entries, p.value)
    decreases q
  {
    var p := NearestSmaller(entries, k, level);
    if p.Some? {
      if entries[q].level < level {
        SkipUp(entries, q + 1, k, level);
      } else {
        var r := Parent(entries, q);
        assert p.value <= q;
        assert p.value < q && entries[p.value].level < entries[q].level;
        if r.None? || r.value < p.value { NearestIsNearest(entries, q, entries[q].level, p.value); }
        forall i | r.value < i < k ensures entries[i].level >= level {
          if i < q { NearestIsNearest(entries, q, entries[q].level, i); }
        }
        NearestIsOnChain(entries, r.value, k, level);
        assert Chain(entries, q) == Chain(entries, r.value) + [q];
      }
    }
  }

  /** The invariant of the built outline: its spine is the parent chain of the last entry. */
  ghost predicate InStep(entries: seq<Entry>, n: nat)
    requires n <= |entries|
  {
    var t := Build(entries, n);
    && Unique(t) && (forall id :: id in Ids(t) <==> 0 <= id < n)
    && Spine(t) == (if n == 0 then [] else Chain(entries, n - 1))
  }

  /** The insertion depth of the next entry, and that its parent is there. */
  lemma NextInsertion(entries: seq<Entry>, n: nat)
    requires n < |entries| && InStep(entries, n)
    ensures Depth(entries, n) <= |Spine(Build(entries, n))|
    ensures Build(entries, n + 1) == AddAt(Build(entries, n), Depth(entries, n), Leaf(n, entries[n]))
    ensures Chain(entries, n) == Spine(Build(entries, n))[..Depth(entries, n)] + [n]
  {
    var t, item := Build(entries, n), Leaf(n, entries[n]);
    var p := Parent(entries, n);
    if p.Some? {
      NearestIsOnChain(entries, n - 1, n, entries[n].level);
      var above := Chain(entries, p.value);
      ChainLength(entries, p.value);
      assert Spine(t)[|above| - 1] == Spine(t)[..|above|][|above| - 1] == p.value;
      AddUnderIsAddAt(t, |above| - 1, item);
    } else {
      AddLastIsAddAt(t, item);
    }
  }

  lemma InsertionKeepsHandles(t: Tree, d: nat, n: nat, title: string, page: int)
    requires Unique(t) && (forall id :: id in Ids(t) <==> 0 <= id < n) && d <= |Spine(t)|
    ensures var t1 := AddAt(t, d, Item(n, title, page, End, End));
            Unique(t1) && (forall id :: id in Ids(t1) <==> 0 <= id < n + 1) && Spine(t1) == Spine(t)[..d] + [n]
  {
    AddAtSpine(t, d, n, title, page);
  }

  lemma InStepNext(entries: seq<Entry>, n: nat)
    requires n < |entries| && InStep(entries, n)
    ensures InStep(entries, n + 1)
  {
    NextInsertion(entries, n);
    InsertionKeepsHandles(Build(entries, n), Depth(entries, n), n, entries[n].title, entries[n].page - 1);
  }

  lemma {:induction false} BuildStaysInStep(entries: seq<Entry>, n: nat)
    requires n <= |entries|
    ensures InStep(entries, n)
    decreases n
  {
    if n > 0 {
      BuildStaysInStep(entries, n - 1);
      InStepNext(entries, n - 1);
    }
  }

  // ---------------------------------------------------------------- the round trip

  lemma ExtractNext(entries: seq<Entry>, n: nat)
    requires n < |entries|
    ensures Extract(Build(entries, n + 1)) == Extract(Build(entries, n)) + [Entry(entries[n].title, entries[n].page, Depth(entries, n))]
  {
    BuildStaysInStep(entries, n);
    NextInsertion(entries, n);
    var t, d := Build(entries, n), Depth(entries, n);
    AddAtWalk(t, d, Leaf(n, entries[n]), 0);
  }

  /** Writing bookmarks and extracting them again returns every title and page in order, each with the
      length of its parent chain as level. */
  lemma {:induction false} RoundTrip(entries: seq<Entry>, n: nat)
    requires n <= |entries|
    ensures Extract(Build(entries, n)) == Normalised(entries)[..n]
    decreases n
  {
    if n > 0 {
      RoundTrip(entries, n - 1);
      ExtractNext(entries, n - 1);
    }
  }

  /** Levels as a table of contents should have them: start at 0, never skip a level downwards. */
  predicate WellFormed(entries: seq<Entry>) {
    && (entries != [] ==> entries[0].level == 0)
    && (forall k :: 0 <= k < |entries| ==> 0 <= entries[k].level)
    && (forall k :: 0 < k < |entries| ==> entries[k].level <= entries[k - 1].level + 1)
  }

  lemma {:induction false} WellFormedDepth(entries: seq<Entry>, k: nat)
    requires WellFormed(entries) && k < |entries|
    ensures Depth(entries, k) == entries[k].level
    decreases k
  {
    var p := Parent(entries, k);
    if p.Some? {
      WellFormedDepth(entries, p.value);
      if p.value + 1 < k { NearestIsNearest(entries, k, entries[k].level, p.value + 1); }
    } else if k > 0 {
      NearestIsNearest(entries, k, entries[k].level, 0);
    }
  }

  lemma DepthStep(entries: seq<Entry>, k: nat)
    requires 0 < k < |entries|
    ensures Depth(entries, k) <= Depth(entries, k - 1) + 1
  {
    NearestIsOnChain(entries, k - 1, k, entries[k].level);
    ChainLength(entries, k - 1);
    if Parent(entries, k).Some? { ChainLength(entries, Parent(entries, k).value); }
  }

  lemma DepthsAreWellFormed(entries: seq<Entry>)
    ensures WellFormed(Normalised(entries))
  {
    var out := Normalised(entries);
    if entries != [] { assert Parent(entries, 0) == None; }
    forall k | 0 < k < |entries| ensures out[k].level <= out[k - 1].level + 1 {
      DepthStep(entries, k);
    }
  }

  /** The bookmarks come back exactly as requested if and only if their levels are well formed. */
  lemma ExactRoundTrip(entries: seq<Entry>)
    ensures Extract(Build(entries, |entries|)) == entries <==> WellFormed(entries)
  {
    RoundTrip(entries, |entries|);
    var out := Normalised(entries);
    assert out[..|entries|] == out;
    if WellFormed(entries) {
      forall k | 0 <= k < |entries| ensures out[k] == entries[k] {
        WellFormedDepth(entries, k);
      }
    } else if out == entries {
      DepthsAreWellFormed(entries);
    }
  }

  /** Extracting, writing and extracting again changes nothing more. */
  lemma NormalisationIsIdempotent(entries: seq<Entry>)
    ensures var once := Extract(Build(entries, |entries|)); Extract(Build(once, |once|)) == once
  {
    RoundTrip(entries, |entries|);
    assert Normalised(entries)[..|entries|] == Normalised(entries);
    DepthsAreWellFormed(entries);
    ExactRoundTrip(Normalised(entries));
  }

  // ---------------------------------------------------------------- what the items show

  /** Every item has the title of its entry and points to its page, counted from 0 in the outline. */
  predicate Shows(t: Tree, entries: seq<Entry>) {
    match t
    case End => true
    case Item(id, title, page, first, next) =>
      && id < |entries| && title == entries[id].title && page == entries[id].page - 1
      && Shows(first, entries) && Shows(next, entries)
  }

  lemma AddLastShows(t: Tree, item: Tree, entries: seq<Entry>)
    requires Shows(t, entries) && Shows(item, entries)
    ensures Shows(AddLast(t, item), entries)
  {
  }

  lemma {:induction false} AddUnderShows(t: Tree, parent: nat, item: Tree, entries: seq<Entry>)
    requires Shows(t, entries) && Shows(item, entries)
    ensures Shows(AddUnder(t, parent, item), entries)
    decreases t
  {
    if t.Item? {
      AddLastShows(t.first, item, entries);
      AddUnderShows(t.first, parent, item, entries);
      AddUnderShows(t.next, parent, item, entries);
    }
  }

  lemma {:induction false} BuildShows(entries: seq<Entry>, n: nat)
    requires n <= |entries|
    ensures Shows(Build(entries, n), entries)
    decreases n
  {
    if n > 0 {
      BuildShows(entries, n - 1);
      AddLastShows(Build(entries, n - 1), Leaf(n - 1, entries[n - 1]), entries);
      var p := Parent(entries, n - 1);
      if p.Some? { AddUnderShows(Build(entries, n - 1), p.value, Leaf(n - 1, entries[n - 1]), entries); }
    }
  }

  // ---------------------------------------------------------------- the two programs

  predicate OnPage(e: Entry, pageCount: int) {
    1 <= e.page <= pageCount
  }

  /** The stack holds the parent chain of the last entry, with levels. */
  ghost predicate StackIs(stack: seq<(int, nat)>, entries: seq<Entry>, chain: seq<nat>) {
    |stack| == |chain| && forall i {:trigger stack[i]} :: 0 <= i < |stack| ==>
                                        stack[i].1 == chain[i] < |entries| && stack[i].0 == entries[chain[i]].level
  }

  lemma {:induction false} ChainIsLinked(entries: seq<Entry>, k: nat, i: nat)
    requires k < |entries| && 0 < i < |Chain(entries, k)|
    ensures Chain(entries, k)[i] <= k && Parent(entries, Chain(entries, k)[i]) == Some(Chain(entries, k)[i - 1])
    decreases k
  {
    var p := Parent(entries, k);
    if i < |Chain(entries, k)| - 1 { ChainIsLinked(entries, p.value, i); }
  }

  lemma {:induction false} ChainIsInside(entries: seq<Entry>, k: nat, i: nat)
    requires k < |entries| && i < |Chain(entries, k)|
    ensures Chain(entries, k)[i] <= k && Chain(entries, k)[0] <= k
    ensures Parent(entries, Chain(entries, k)[0]) == None
    decreases k
  {
    var p := Parent(entries, k);
    if p.Some? { ChainIsInside(entries, p.value, if i < |Chain(entries, k)| - 1 then i else 0); }
  }

  lemma BuildNext(entries: seq<Entry>, n: nat, parent: Option<nat>)
    requires n < |entries| && parent == Parent(entries, n)
    ensures Build(entries, n + 1) == AddItem(Build(entries, n), parent, Item(n, entries[n].title, entries[n].page - 1, End, End))
  {
  }

  ghost predicate Ready(entries: seq<Entry>, n: nat, writer: Tree, stack: seq<(int, nat)>) {
    n <= |entries| && writer == Build(entries, n) && StackFor(stack, entries, n)
  }

  lemma StartsReady(entries: seq<Entry>)
    ensures Ready(entries, 0, End, [])
  {
  }

  ghost predicate StackFor(stack: seq<(int, nat)>, entries: seq<Entry>, n: nat)
    requires n <= |entries|
  {
    StackIs(stack, entries, if n == 0 then [] else Chain(entries, n - 1))
  }

  /** add_bookmarks: refuses a page outside the document, and otherwise gives every entry the nearest
      earlier entry of smaller level as parent. */
  method AddBookmarks(entries: seq<Entry>, pageCount: int) returns (outline: Option<Tree>)
    ensures outline.None? <==> exists k :: 0 <= k < |entries| && !(1 <= entries[k].page <= pageCount)
    ensures outline.Some? ==> Shows(outline.value, entries)
    ensures outline.Some? ==> outline.value == Build(entries, |entries|)
  {
    var writer := End;
    var stack: seq<(int, nat)> := [];
    var n := 0;
    StartsReady(entries);
    while n < |entries|
      invariant 0 <= n <= |entries|
      invariant forall k :: 0 <= k < n ==> OnPage(entries[k], pageCount)
      invariant Ready(entries, n, writer, stack)
    {
      var entry := entries[n];
      var page := entry.page - 1;
      if page < 0 || page >= pageCount {
        assert !OnPage(entries[n], pageCount);
        return None;
      }
      writer, stack := AddEntry(entries, n, writer, stack);
      n := n + 1;
    }
    BuildShows(entries, n);
    return Some(writer);
  }

  method AddEntry(entries: seq<Entry>, n: nat, writer: Tree, stack: seq<(int, nat)>) returns (longer: Tree, pushed: seq<(int, nat)>)
    requires n < |entries| && Ready(entries, n, writer, stack)
    ensures Ready(entries, n + 1, longer, pushed)
  {
    ghost var chain := if n == 0 then [] else Chain(entries, n - 1);
    var open := PopTo(entries, n, stack, chain);
    var parent := if open == [] then None else Some(open[|open| - 1].1);
    longer := AddItem(writer, parent, Item(n, entries[n].title, entries[n].page - 1, End, End));
    pushed := Push(entries, n, open, chain, parent);
    BuildNext(entries, n, parent);
  }

  method Push(entries: seq<Entry>, n: nat, stack: seq<(int, nat)>, ghost chain: seq<nat>, ghost parent: Option<nat>) returns (pushed: seq<(int, nat)>)
    requires n < |entries| && chain == (if n == 0 then [] else Chain(entries, n - 1))
    requires |stack| <= |chain| && StackIs(stack, entries, chain[..|stack|])
    requires parent == Parent(entries, n) && parent == if stack == [] then None else Some(stack[|stack| - 1].1)
    ensures pushed == stack + [(entries[n].level, n)] && StackFor(pushed, entries, n + 1)
  {
    PushIsChain(entries, n, chain, |stack|, parent);
    pushed := stack + [(entries[n].level, n)];
    assert forall i :: 0 <= i < |stack| ==> pushed[i] == stack[i] && Chain(entries, n)[i] == chain[..|stack|][i];
  }

  /** Pops the stack until its top has a smaller level than entry n: the top is then n's parent. */
  method PopTo(entries: seq<Entry>, n: nat, full: seq<(int, nat)>, ghost chain: seq<nat>) returns (stack: seq<(int, nat)>)
    requires n < |entries| && chain == (if n == 0 then [] else Chain(entries, n - 1)) && StackIs(full, entries, chain)
    ensures |stack| <= |chain| && StackIs(stack, entries, chain[..|stack|])
    ensures Parent(entries, n) == if stack == [] then None else Some(stack[|stack| - 1].1)
  {
    stack := full;
    while stack != [] && stack[|stack| - 1].0 >= entries[n].level
      invariant |stack| <= |full| && stack == full[..|stack|]
      invariant Clear(entries, n, TopOf(chain, |stack|))
      decreases |stack|
    {
      ChainStep(entries, n - 1, |stack|);
      PopOne(entries, n, chain[|stack| - 1], TopOf(chain, |stack| - 1));
      stack := stack[..|stack| - 1];
    }
    StackPrefix(full, entries, chain, |stack|);
    TopIsParent(entries, n, TopOf(chain, |stack|));
  }

  lemma StackPrefix(full: seq<(int, nat)>, entries: seq<Entry>, chain: seq<nat>, h: nat)
    requires StackIs(full, entries, chain) && h <= |full|
    ensures StackIs(full[..h], entries, chain[..h])
    ensures h > 0 ==> full[..h][h - 1].1 == chain[h - 1] < |entries| && full[..h][h - 1].0 == entries[chain[h - 1]].level
  {
    forall i {:trigger full[..h][i]} | 0 <= i < h
      ensures full[..h][i].1 == chain[..h][i] < |entries| && full[..h][i].0 == entries[chain[..h][i]].level
    {
      assert full[..h][i] == full[i] && chain[..h][i] == chain[i];
    }
  }

  /** The entry on top of a stack of height h, or -1. */
  function TopOf(chain: seq<nat>, h: nat): int
    requires h <= |chain|
  {
    if h == 0 then -1 else chain[h - 1]
  }

  /** No entry after `top` and before n has a smaller level than n. */
  ghost predicate Clear(entries: seq<Entry>, n: nat, top: int) {
    -1 <= top < n < |entries| && forall i :: top < i < n ==> entries[i].level >= entries[n].level
  }

  lemma PopOne(entries: seq<Entry>, n: nat, top: nat, below: int)
    requires Clear(entries, n, top) && entries[top].level >= entries[n].level
    requires -1 <= below < top && Parent(entries, top) == if below < 0 then None else Some(below)
    ensures Clear(entries, n, below)
  {
    forall i | below < i < top ensures entries[i].level >= entries[top].level {
      NearestIsNearest(entries, top, entries[top].level, i);
    }
  }

  lemma ChainStep(entries: seq<Entry>, k: nat, h: nat)
    requires k < |entries| && 0 < h <= |Chain(entries, k)|
    ensures var chain := Chain(entries, k);
            && chain[h - 1] < |entries| && -1 <= TopOf(chain, h - 1) < chain[h - 1]
            && Parent(entries, chain[h - 1]) == if TopOf(chain, h - 1) < 0 then None else Some(TopOf(chain, h - 1))
  {
    ChainIsInside(entries, k, h - 1);
    if h > 1 { ChainIsLinked(entries, k, h - 1); }
  }

  lemma TopIsParent(entries: seq<Entry>, n: nat, top: int)
    requires Clear(entries, n, top) && (top >= 0 ==> entries[top].level < entries[n].level)
    ensures Parent(entries, n) == if top < 0 then None else Some(top)
  {
    SkipUp(entries, top + 1, n, entries[n].level);
  }

  lemma {:induction false} SkipUp(entries: seq<Entry>, a: nat, b: nat, level: int)
    requires a <= b <= |entries| && forall i :: a <= i < b ==> entries[i].level >= level
    ensures NearestSmaller(entries, b, level) == NearestSmaller(entries, a, level)
    decreases b - a
  {
    if a < b { SkipUp(entries, a, b - 1, level); }
  }

  lemma PushIsChain(entries: seq<Entry>, n: nat, chain: seq<nat>, kept: nat, parent: Option<nat>)
    requires n < |entries| && chain == (if n == 0 then [] else Chain(entries, n - 1)) && kept <= |chain|
    requires parent == Parent(entries, n) && parent == if kept == 0 then None else Some(chain[kept - 1])
    ensures Chain(entries, n) == chain[..kept] + [n]
  {
    if kept > 0 { ChainPrefix(entries, n - 1, kept - 1); }
  }

  /** Every prefix of a chain is the chain of its last entry. */
  lemma {:induction false} ChainPrefix(entries: seq<Entry>, k: nat, i: nat)
    requires k < |entries| && i < |Chain(entries, k)|
    ensures Chain(entries, k)[i] < |entries| && Chain(entries, k)[..i + 1] == Chain(entries, Chain(entries, k)[i])
    decreases k
  {
    var chain := Chain(entries, k);
    if i < |chain| - 1 {
      ChainPrefix(entries, Parent(entries, k).value, i);
    } else {
      assert chain[..i + 1] == chain;
    }
  }

  /** The list that the recursive walk appends to. */
  class Results {
    var entries: seq<Entry>

    constructor ()
      ensures entries == []
    {
      entries := [];
    }

    method WalkOutlines(items: Nested, level: int)
      modifies this
      ensures entries == old(entries) + Walk(items, level)
      decreases items
    {
      match items
      case Nil =>
      case Dest(title, page, rest) =>
        entries := entries + [Entry(title, page + 1, level)];
        WalkOutlines(rest, level);
      case Sub(inner, rest) =>
        WalkOutlines(inner, level + 1);
        WalkOutlines(rest, level);
    }
  }
}
