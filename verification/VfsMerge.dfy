/** Merging the layers of an install set into one tree: which sets of copies are accepted, and what is then served. */
module VfsMerge {
  import opened Bits
  import opened Streams

  const COMPARE_BLOCK := 65536

  /** A directory, or a file with its bytes, and the layer it comes from. */
  datatype Node = Node(dir: bool, source: string, bytes: seq<byte>)

  /** One thing a layer's walk comes to, and the path it lands at. */
  datatype Item = Item(path: string, node: Node)

  datatype Layer = Layer(name: string, items: seq<Item>)

  type Tree = map<string, Node>

  predicate LayerOK(l: Layer) {
    l.name != "" && forall i | 0 <= i < |l.items| :: l.items[i].node.source == l.name
  }

  /** The configured winner at a path; an empty name is none. */
  function Winner(winners: map<string, string>, path: string): string {
    if path in winners then winners[path] else ""
  }

  /** What stands at a path once a copy has joined what was there, or nothing if the two cannot be reconciled. */
  function Settle(was: Node, copy: Node, winner: string): (r: Option<Node>) {
    if was.dir != copy.dir then None
    else if was.dir then Some(was)
    else if winner != "" then Some(if copy.source == winner then copy else was)
    else if was.bytes == copy.bytes then Some(was)
    else None
  }

  function Merge(tree: Tree, item: Item, winners: map<string, string>): (r: Option<Tree>) {
    if item.path !in tree then Some(tree[item.path := item.node])
    else
      match Settle(tree[item.path], item.node, Winner(winners, item.path))
      case None => None
      case Some(n) => Some(tree[item.path := n])
  }

  function MergeAll(items: seq<Item>, winners: map<string, string>): (r: Option<Tree>) {
    if items == [] then Some(map[])
    else
      match MergeAll(items[..|items| - 1], winners)
      case None => None
      case Some(tree) => Merge(tree, items[|items| - 1], winners)
  }

  /** Every configured winner did win. */
  predicate WinnersWon(tree: Tree, winners: map<string, string>) {
    forall path | path in winners :: path in tree && !tree[path].dir && tree[path].source == winners[path]
  }

  function AllItems(layers: seq<Layer>): seq<Item> {
    if layers == [] then [] else AllItems(layers[..|layers| - 1]) + layers[|layers| - 1].items
  }

  function Names(layers: seq<Layer>): set<string> {
    if layers == [] then {} else Names(layers[..|layers| - 1]) + {layers[|layers| - 1].name}
  }

  predicate DistinctNames(layers: seq<Layer>) {
    layers != [] ==>
      DistinctNames(layers[..|layers| - 1]) && layers[|layers| - 1].name !in Names(layers[..|layers| - 1])
  }

  /** The tree a set's layers make, or nothing. */
  function Built(layers: seq<Layer>, winners: map<string, string>): (r: Option<Tree>) {
    if !DistinctNames(layers) then None
    else
      match MergeAll(AllItems(layers), winners)
      case None => None
      case Some(tree) => if WinnersWon(tree, winners) then Some(tree) else None
  }

  // ----- which copies can be reconciled

  predicate Compatible(a: Item, b: Item, winners: map<string, string>) {
    a.path == b.path ==>
      a.node.dir == b.node.dir && (!a.node.dir && Winner(winners, a.path) == "" ==> a.node.bytes == b.node.bytes)
  }

  /** Any two copies at a path are of one kind, and files without a winner have the same bytes. */
  predicate Agree(items: seq<Item>, winners: map<string, string>) {
    forall x, y | x in items && y in items :: Compatible(x, y, winners)
  }

  /** The first copy at a path, or nothing. */
  function FirstAt(items: seq<Item>, path: string): (r: Option<Node>)
    ensures r.Some? <==> exists x :: x in items && x.path == path
    ensures r.Some? ==> Item(path, r.value) in items
  {
    if items == [] then None
    else
      var rest, last := items[..|items| - 1], items[|items| - 1];
      assert forall x | x in items :: x in rest || x == last;
      assert last in items;
      match FirstAt(rest, path)
      case Some(n) => assert Item(path, n) in rest; Some(n)
      case None => if last.path == path then Some(last.node) else None
  }

  /** The last copy at a path from a layer, or nothing. */
  function LastFrom(items: seq<Item>, path: string, source: string): (r: Option<Node>)
    ensures r.Some? ==> r.value.source == source && Item(path, r.value) in items
    ensures r.None? ==> forall x | x in items :: !(x.path == path && x.node.source == source)
  {
    if items == [] then None
    else
      var rest, last := items[..|items| - 1], items[|items| - 1];
      assert forall x | x in items :: x in rest || x == last;
      if last.path == path && last.node.source == source then Some(last.node)
      else LastFrom(rest, path, source)
  }

  /** What is served at a path: the earliest copy, unless a winner is configured and has one. */
  function Chosen(items: seq<Item>, winners: map<string, string>, path: string): (r: Option<Node>) {
    var first, w := FirstAt(items, path), Winner(winners, path);
    if first.Some? && !first.value.dir && w != "" &&
        LastFrom(items, path, w).Some? then LastFrom(items, path, w) else first
  }

  function At(tree: Tree, path: string): Option<Node> {
    if path in tree then Some(tree[path]) else None
  }

  ghost predicate Serves(tree: Tree, items: seq<Item>, winners: map<string, string>) {
    forall path :: At(tree, path) == Chosen(items, winners, path)
  }

  // ----- merging does exactly that

  lemma AgreeSnoc(items: seq<Item>, last: Item, winners: map<string, string>)
    ensures Agree(items + [last], winners) <==>
              Agree(items, winners) && forall x | x in items :: Compatible(x, last, winners)
  {
    var all := items + [last];
    assert last in all;
    assert forall x | x in items :: x in all;
    if Agree(items, winners) && forall x | x in items :: Compatible(x, last, winners) {
      forall x, y | x in all && y in all ensures Compatible(x, y, winners) {
        assert x in items || x == last;
        assert y in items || y == last;
      }
    }
  }

  /** With copies that agree, one of them stands for all when another comes. */
  lemma OneForAll(items: seq<Item>, last: Item, winners: map<string, string>, n: Node)
    requires Agree(items, winners) && Item(last.path, n) in items
    ensures (forall x | x in items :: Compatible(x, last, winners)) <==> Compatible(Item(last.path, n), last, winners)
    ensures Compatible(Item(last.path, n), last, winners) <==> Settle(n, last.node, Winner(winners, last.path)).Some?
  {
    var one := Item(last.path, n);
    forall x | x in items && x.path == last.path &&
        Compatible(one, last, winners) ensures Compatible(x, last, winners) {
      assert Compatible(x, one, winners);
    }
  }

  lemma ChosenIn(items: seq<Item>, winners: map<string, string>, path: string)
    ensures Chosen(items, winners, path).Some? ==> Item(path, Chosen(items, winners, path).value) in items
    ensures Chosen(items, winners, path).None? ==> forall x | x in items :: x.path != path
  {
  }

  lemma ChosenSnoc(items: seq<Item>, last: Item, winners: map<string, string>, path: string)
    ensures path != last.path ==> Chosen(items + [last], winners, path) == Chosen(items, winners, path)
    ensures FirstAt(items, last.path).None? ==> Chosen(items + [last], winners, last.path) == Some(last.node)
  {
    assert (items + [last])[..|items|] == items;
  }

  /** A further copy changes the choice as it is settled. */
  lemma ChosenSettles(items: seq<Item>, last: Item, winners: map<string, string>)
    requires Agree(items, winners) && Chosen(items, winners, last.path).Some?
    ensures var w, n := Winner(winners, last.path), Chosen(items, winners, last.path).value;
      Settle(n, last.node, w).Some? ==> Chosen(items + [last], winners, last.path) == Settle(n, last.node, w)
  {
    assert (items + [last])[..|items|] == items;
    var first, n := FirstAt(items, last.path).value, Chosen(items, winners, last.path).value;
    assert Compatible(Item(last.path, first), Item(last.path, n), winners);
  }

  lemma MergeStep(tree: Tree, items: seq<Item>, last: Item, winners: map<string, string>)
    requires Agree(items, winners) && Serves(tree, items, winners)
    ensures Merge(tree, last, winners).Some? <==> Agree(items + [last], winners)
    ensures Merge(tree, last, winners).Some? ==> Serves(Merge(tree, last, winners).value, items + [last], winners)
  {
    var path, r := last.path, Merge(tree, last, winners);
    AgreeSnoc(items, last, winners);
    assert At(tree, path) == Chosen(items, winners, path);
    ChosenIn(items, winners, path);
    if path in tree {
      OneForAll(items, last, winners, tree[path]);
      ChosenSettles(items, last, winners);
    }
    if r.Some? {
      forall p ensures At(r.value, p) == Chosen(items + [last], winners, p) {
        ChosenSnoc(items, last, winners, p);
        assert At(tree, p) == Chosen(items, winners, p);
      }
    }
  }

  /** Merging succeeds exactly when all copies agree, and then serves the chosen ones. */
  lemma {:induction false} MergeAllIs(items: seq<Item>, winners: map<string, string>)
    ensures MergeAll(items, winners).Some? <==> Agree(items, winners)
    ensures MergeAll(items, winners).Some? ==> Serves(MergeAll(items, winners).value, items, winners)
  {
    if items != [] {
      var rest, last := items[..|items| - 1], items[|items| - 1];
      MergeAllIs(rest, winners);
      assert items == rest + [last];
      AgreeSnoc(rest, last, winners);
      if Agree(rest, winners) {
        MergeStep(MergeAll(rest, winners).value, rest, last, winners);
      }
    }
  }

  // ----- the order of the layers

  lemma {:induction false} ItemsOf(layers: seq<Layer>, x: Item)
    ensures x in AllItems(layers) <==> exists l :: l in layers && x in l.items
  {
    if layers != [] {
      var rest, last := layers[..|layers| - 1], layers[|layers| - 1];
      ItemsOf(rest, x);
      assert layers == rest + [last];
    }
  }

  lemma SameItems(a: seq<Layer>, b: seq<Layer>)
    requires multiset(a) == multiset(b)
    ensures forall x :: x in AllItems(a) <==> x in AllItems(b)
  {
    forall x ensures x in AllItems(a) <==> x in AllItems(b) {
      ItemsOf(a, x);
      ItemsOf(b, x);
      assert forall l :: l in a <==> l in multiset(a);
      assert forall l :: l in b <==> l in multiset(b);
    }
  }

  lemma {:induction false} NamesCount(layers: seq<Layer>)
    ensures |Names(layers)| <= |layers| && (DistinctNames(layers) <==> |Names(layers)| == |layers|)
    ensures forall n :: n in Names(layers) <==> exists l :: l in layers && l.name == n
  {
    if layers != [] {
      var rest, last := layers[..|layers| - 1], layers[|layers| - 1];
      NamesCount(rest);
      assert layers == rest + [last];
      if last.name in Names(rest) {
        assert Names(layers) == Names(rest);
      }
    }
  }

  lemma SameNames(a: seq<Layer>, b: seq<Layer>)
    requires multiset(a) == multiset(b)
    ensures (DistinctNames(a) <==> DistinctNames(b)) && Names(a) == Names(b)
  {
    NamesCount(a);
    NamesCount(b);
    assert |multiset(a)| == |a| && |multiset(b)| == |b|;
    assert forall l :: l in a <==> l in multiset(a);
    assert forall l :: l in b <==> l in multiset(b);
    assert Names(a) == Names(b);
  }

  lemma {:induction false} LastFromConcat(x: seq<Item>, y: seq<Item>, path: string, source: string)
    ensures LastFrom(x + y, path, source) == if LastFrom(y, path, source).Some? then LastFrom(y, path, source)
            else LastFrom(x, path, source)
  {
    if y == [] {
      assert x + y == x;
    } else {
      LastFromConcat(x, y[..|y| - 1], path, source);
      assert (x + y)[..|x + y| - 1] == x + y[..|y| - 1];
    }
  }

  lemma NoneFrom(l: Layer, path: string, source: string)
    requires LayerOK(l) && l.name != source
    ensures LastFrom(l.items, path, source).None?
  {
  }

  /** What a layer has at a path does not depend on the layers around it. */
  lemma {:induction false} LastFromLayer(layers: seq<Layer>, path: string, source: string)
    requires DistinctNames(layers) && forall l | l in layers :: LayerOK(l)
    ensures source !in Names(layers) ==> LastFrom(AllItems(layers), path, source).None?
    ensures forall l | l in layers &&
            l.name == source :: LastFrom(AllItems(layers), path, source) == LastFrom(l.items, path, source)
  {
    if layers != [] {
      var rest, last := layers[..|layers| - 1], layers[|layers| - 1];
      assert layers == rest + [last];
      assert forall l | l in rest :: l in layers;
      assert last in layers;
      LastFromLayer(rest, path, source);
      LastFromConcat(AllItems(rest), last.items, path, source);
      NamesCount(rest);
      if last.name != source {
        NoneFrom(last, path, source);
      }
    }
  }

  /** The same layers, each well formed and named once, in two orders. */
  ghost predicate Reordered(a: seq<Layer>, b: seq<Layer>) {
    && multiset(a) == multiset(b) && DistinctNames(a) && DistinctNames(b)
    && (forall l | l in a :: LayerOK(l)) && (forall l | l in b :: LayerOK(l))
  }

  lemma SameLast(a: seq<Layer>, b: seq<Layer>, path: string, source: string)
    requires Reordered(a, b)
    ensures LastFrom(AllItems(a), path, source) == LastFrom(AllItems(b), path, source)
  {
    LastFromLayer(a, path, source);
    LastFromLayer(b, path, source);
    SameNames(a, b);
    NamesCount(a);
    if source in Names(a) {
      var l :| l in a && l.name == source;
      assert l in multiset(a) && l in b;
    }
  }

  /** Two choices are of one kind and serve the same bytes. */
  predicate Alike(a: Option<Node>, b: Option<Node>) {
    a.Some? == b.Some? && (a.Some? ==> a.value.dir == b.value.dir && (!a.value.dir ==> a.value.bytes == b.value.bytes))
  }

  predicate SourcesNamed(items: seq<Item>) {
    forall x | x in items :: x.node.source != ""
  }

  /** A configured winner is what is chosen exactly when it has a copy. */
  lemma WinnerChosen(items: seq<Item>, winners: map<string, string>, path: string)
    requires path in winners && SourcesNamed(items) && Agree(items, winners)
    ensures (Chosen(items, winners, path).Some? && !Chosen(items, winners, path).value.dir &&
            Chosen(items, winners, path).value.source == winners[path])
       <==> (FirstAt(items, path).Some? && !FirstAt(items, path).value.dir &&
           LastFrom(items, path, winners[path]).Some?)
  {
    var first, last := FirstAt(items, path), LastFrom(items, path, winners[path]);
    if last.Some? {
      assert Compatible(Item(path, first.value), Item(path, last.value), winners);
    }
  }

  lemma SameChoice(x: seq<Item>, y: seq<Item>, winners: map<string, string>, path: string)
    requires Agree(x, winners) && (forall i :: i in x <==> i in y)
    requires LastFrom(x, path, Winner(winners, path)) == LastFrom(y, path, Winner(winners, path))
    requires SourcesNamed(x)
    ensures FirstAt(x, path).Some? == FirstAt(y, path).Some?
    ensures FirstAt(x, path).Some? ==> FirstAt(x, path).value.dir == FirstAt(y, path).value.dir
    ensures Alike(Chosen(x, winners, path), Chosen(y, winners, path)) || Winner(winners, path) != ""
    ensures LastFrom(x, path, Winner(winners, path)).Some? ==> Alike(Chosen(x, winners, path), Chosen(y, winners, path))
  {
    var fx, fy := FirstAt(x, path), FirstAt(y, path);
    if fx.Some? {
      assert Item(path, fx.value) in y;
      assert Item(path, fy.value) in x;
      assert Compatible(Item(path, fx.value), Item(path, fy.value), winners);
    }
  }

  lemma AllNamed(layers: seq<Layer>)
    requires forall l | l in layers :: LayerOK(l)
    ensures SourcesNamed(AllItems(layers))
  {
    forall x | x in AllItems(layers) ensures x.node.source != "" {
      ItemsOf(layers, x);
      var l :| l in layers && x in l.items;
    }
  }

  lemma SameWin(a: seq<Layer>, b: seq<Layer>, winners: map<string, string>, ta: Tree, tb: Tree, path: string)
    requires Reordered(a, b) && Agree(AllItems(a), winners) && Agree(AllItems(b), winners)
    requires Serves(ta, AllItems(a), winners) && Serves(tb, AllItems(b), winners)
    requires path in winners && path in ta && !ta[path].dir && ta[path].source == winners[path]
    ensures path in tb && !tb[path].dir && tb[path].source == winners[path]
  {
    var x, y := AllItems(a), AllItems(b);
    SameItems(a, b);
    SameLast(a, b, path, winners[path]);
    AllNamed(a);
    AllNamed(b);
    SameChoice(x, y, winners, path);
    WinnerChosen(x, winners, path);
    WinnerChosen(y, winners, path);
    assert At(ta, path) == Chosen(x, winners, path);
    assert At(tb, path) == Chosen(y, winners, path);
  }

  lemma SameServed(a: seq<Layer>, b: seq<Layer>, winners: map<string, string>, ta: Tree, tb: Tree, path: string)
    requires Reordered(a, b) && Agree(AllItems(a), winners)
    requires Serves(ta, AllItems(a), winners) && Serves(tb, AllItems(b), winners) && WinnersWon(ta, winners)
    ensures Alike(At(ta, path), At(tb, path))
  {
    var x, y := AllItems(a), AllItems(b);
    SameItems(a, b);
    SameLast(a, b, path, Winner(winners, path));
    AllNamed(a);
    SameChoice(x, y, winners, path);
    assert At(ta, path) == Chosen(x, winners, path);
    assert At(tb, path) == Chosen(y, winners, path);
    if path in winners {
      WinnerChosen(x, winners, path);
    }
  }

  lemma SameAgreement(a: seq<Layer>, b: seq<Layer>, winners: map<string, string>)
    requires multiset(a) == multiset(b)
    ensures Agree(AllItems(a), winners) <==> Agree(AllItems(b), winners)
  {
    SameItems(a, b);
  }

  lemma WinsReordered(a: seq<Layer>, b: seq<Layer>, winners: map<string, string>, ta: Tree, tb: Tree)
    requires Reordered(a, b) && Agree(AllItems(a), winners) && Agree(AllItems(b), winners)
    requires Serves(ta, AllItems(a), winners) && Serves(tb, AllItems(b), winners) && WinnersWon(ta, winners)
    ensures WinnersWon(tb, winners) && forall path :: Alike(At(ta, path), At(tb, path))
  {
    forall path | path in winners ensures path in tb && !tb[path].dir && tb[path].source == winners[path] {
      SameWin(a, b, winners, ta, tb, path);
    }
    forall path ensures Alike(At(ta, path), At(tb, path)) {
      SameServed(a, b, winners, ta, tb, path);
    }
  }

  lemma MergedReordered(a: seq<Layer>, b: seq<Layer>, winners: map<string, string>)
    requires Reordered(a, b) && MergeAll(AllItems(a), winners).Some? &&
             WinnersWon(MergeAll(AllItems(a), winners).value, winners)
    ensures MergeAll(AllItems(b), winners).Some? && WinnersWon(MergeAll(AllItems(b), winners).value, winners)
    ensures forall path ::
            Alike(At(MergeAll(AllItems(a), winners).value, path), At(MergeAll(AllItems(b), winners).value, path))
  {
    MergeAllIs(AllItems(a), winners);
    MergeAllIs(AllItems(b), winners);
    SameAgreement(a, b, winners);
    WinsReordered(a, b, winners, MergeAll(AllItems(a), winners).value, MergeAll(AllItems(b), winners).value);
  }

  /** Whether layers are accepted, and what each path then serves, does not depend on their order. */
  lemma OrderFree(a: seq<Layer>, b: seq<Layer>, winners: map<string, string>)
    requires multiset(a) == multiset(b) && forall l | l in a :: LayerOK(l)
    ensures Built(a, winners).Some? <==> Built(b, winners).Some?
    ensures Built(a, winners).Some? ==>
              forall path :: Alike(At(Built(a, winners).value, path), At(Built(b, winners).value, path))
  {
    SameNames(a, b);
    forall l | l in b ensures LayerOK(l) {
      assert l in multiset(b) && l in a;
    }
    if Built(a, winners).Some? {
      MergedReordered(a, b, winners);
    } else if Built(b, winners).Some? {
      MergedReordered(b, a, winners);
    }
  }

  // ----- the building

  /** Compares two files a block at a time. */
  method SameContent(a: seq<byte>, b: seq<byte>) returns (same: bool)
    ensures same == (a == b)
  {
    if |a| != |b| {
      return false;
    }
    var off := 0;
    while off < |a|
      invariant off <= |a| && a[..off] == b[..off]
    {
      var n := if COMPARE_BLOCK <= |a| - off then COMPARE_BLOCK else |a| - off;
      if a[off..off + n] != b[off..off + n] {
        return false;
      }
      assert a[..off + n] == a[..off] + a[off..off + n] == b[..off + n];
      off := off + n;
    }
    assert a == a[..off] && b == b[..off];
    same := true;
  }

  class Builder {
    var tree: Tree

    constructor ()
      ensures tree == map[]
    {
      tree := map[];
    }

    method MergeChild(item: Item, winners: map<string, string>) returns (ok: bool)
      modifies this
      ensures ok == Merge(old(tree), item, winners).Some?
      ensures ok ==> Some(tree) == Merge(old(tree), item, winners)
    {
      var path, cand := item.path, item.node;
      if path !in tree {
        tree := tree[path := cand];
        return true;
      }
      var was := tree[path];
      if was.dir != cand.dir {
        return false;
      }
      ok := true;
      if !was.dir {
        var winner := Winner(winners, path);
        if winner != "" {
          if cand.source == winner {
            tree := tree[path := cand];
          }
        } else {
          ok := SameContent(was.bytes, cand.bytes);
        }
      }
      assert ok && tree[path] == was ==> tree == tree[path := was];
    }

    /** Merges what a layer's walk comes to. */
    method AddLayer(layer: Layer, winners: map<string, string>, ghost before: seq<Item>) returns (ok: bool)
      requires MergeAll(before, winners) == Some(tree)
      modifies this
      ensures ok == MergeAll(before + layer.items, winners).Some?
      ensures ok ==> MergeAll(before + layer.items, winners) == Some(tree)
    {
      assert before + layer.items[..0] == before;
      for k := 0 to |layer.items|
        invariant MergeAll(before + layer.items[..k], winners) == Some(tree)
      {
        ghost var all := before + layer.items[..k + 1];
        assert all[..|all| - 1] == before + layer.items[..k];
        ok := MergeChild(layer.items[k], winners);
        if !ok {
          assert before + layer.items == all + layer.items[k + 1..];
          FailureStays(all, layer.items[k + 1..], winners);
          return;
        }
      }
      assert layer.items[..|layer.items|] == layer.items;
      ok := true;
    }

    /** Every configured winner must be what is served. */
    method CheckCollisions(winners: map<string, string>) returns (ok: bool)
      ensures ok == WinnersWon(tree, winners)
    {
      var todo := winners.Keys;
      while todo != {}
        invariant todo <= winners.Keys
        invariant forall path | path in winners && path !in todo ::
                    path in tree && !tree[path].dir && tree[path].source == winners[path]
        decreases todo
      {
        var path :| path in todo;
        if path !in tree || tree[path].dir || tree[path].source != winners[path] {
          return false;
        }
        todo := todo - {path};
      }
      ok := true;
    }

    /** Merges layer after layer, each in the order of its walk, then checks the winners. */
    method Build(layers: seq<Layer>, winners: map<string, string>) returns (ok: bool)
      requires tree == map[]
      modifies this
      ensures ok == Built(layers, winners).Some?
      ensures ok ==> Some(tree) == Built(layers, winners)
    {
      ok := CheckNames(layers);
      if !ok {
        return;
      }
      for n := 0 to |layers|
        invariant MergeAll(AllItems(layers[..n]), winners) == Some(tree)
      {
        assert layers[..n + 1][..n] == layers[..n];
        ok := AddLayer(layers[n], winners, AllItems(layers[..n]));
        if !ok {
          LayerFailureStays(layers, n + 1, winners);
          return;
        }
      }
      assert layers[..|layers|] == layers;
      ok := CheckCollisions(winners);
    }
  }

  lemma {:induction false} FailureStays(items: seq<Item>, more: seq<Item>, winners: map<string, string>)
    requires MergeAll(items, winners).None?
    ensures MergeAll(items + more, winners).None?
    decreases more
  {
    if more == [] {
      assert items + more == items;
    } else {
      FailureStays(items, more[..|more| - 1], winners);
      assert (items + more)[..|items + more| - 1] == items + more[..|more| - 1];
    }
  }

  lemma {:induction false} LayerFailureStays(layers: seq<Layer>, n: nat, winners: map<string, string>)
    requires n <= |layers| && MergeAll(AllItems(layers[..n]), winners).None?
    ensures MergeAll(AllItems(layers), winners).None?
    decreases |layers| - n
  {
    if n == |layers| {
      assert layers[..n] == layers;
    } else {
      assert layers[..n + 1][..n] == layers[..n];
      FailureStays(AllItems(layers[..n]), layers[n].items, winners);
      LayerFailureStays(layers, n + 1, winners);
    }
  }

  /** No layer may be named twice. */
  method CheckNames(layers: seq<Layer>) returns (ok: bool)
    ensures ok == DistinctNames(layers)
  {
    var seen := {};
    for n := 0 to |layers|
      invariant seen == Names(layers[..n]) && DistinctNames(layers[..n])
    {
      assert layers[..n + 1][..n] == layers[..n];
      if layers[n].name in seen {
        TwiceStays(layers, n + 1);
        return false;
      }
      seen := seen + {layers[n].name};
    }
    assert layers[..|layers|] == layers;
    ok := true;
  }

  lemma {:induction false} TwiceStays(layers: seq<Layer>, n: nat)
    requires n <= |layers| && !DistinctNames(layers[..n])
    ensures !DistinctNames(layers)
    decreases |layers| - n
  {
    if n == |layers| {
      assert layers[..n] == layers;
    } else {
      assert layers[..n + 1][..n] == layers[..n];
      TwiceStays(layers, n + 1);
    }
  }
}
