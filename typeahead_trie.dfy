/**
 * The character trie of typeahead.py (class `Node`). Every node keeps, in `items`, the
 * items having a token that the path to the node is a prefix of; children are created
 * on demand, by adding, deleting and querying alike.
 *
 * The abstraction: a `Trie` holds the root and, as ghost state, the map from each path
 * to the node that sits there. `Contents()` maps each existing path to that node's
 * items, and every operation is specified by the change it makes to `Contents()`.
 */
module TypeaheadTrie {
  import opened Text
  import opened TypeaheadItem

  type Items = map<string, Item>
  type Contents = map<string, Items>

  /** What an operation does to the items of each node it visits. */
  datatype Edit = Touch | Put(item: Item) | Drop(id: string)

  function Apply(e: Edit, m: Items): Items {
    match e
    case Touch => m
    case Put(item) => m[item.id := item]
    case Drop(id) => m - {id}
  }

  /** The items at path `p`; a path without a node has none. */
  function Get(c: Contents, p: string): Items {
    if p in c then c[p] else map[]
  }

  /**
   * `c` after every path of `P` has a node (created empty where it was missing) and
   * `e` has been applied at each of them.
   */
  ghost function Along(c: Contents, P: set<string>, e: Edit): (r: Contents) {
    map q | q in c.Keys + P :: if q in P then Apply(e, Get(c, q)) else c[q]
  }

  /** The nodes visited from the node at `at` along `path`: `at` extended by each prefix of `path`. */
  ghost function Path(at: string, path: string): set<string> {
    set k | 0 <= k <= |path| :: at + path[..k]
  }

  /** The nodes visited from the node at `at` along each token of `tokens`. */
  ghost function Paths(at: string, tokens: seq<string>): set<string> {
    set i, k | 0 <= i < |tokens| && 0 <= k <= |tokens[i]| :: at + tokens[i][..k]
  }

  lemma AlongTouchOld(c: Contents, q: string)
    requires q in c
    ensures Along(c, {q}, Touch) == c
  {
  }

  /** Visiting no node changes nothing. */
  lemma AlongNone(c: Contents, e: Edit)
    ensures Along(c, {}, e) == c
  {
  }

  /** Every edit is idempotent, so two passes of it compose into one over both sets of paths. */
  lemma AlongTwice(c: Contents, P: set<string>, Q: set<string>, e: Edit)
    ensures Along(Along(c, P, e), Q, e) == Along(c, P + Q, e)
  {
    var l, r := Along(Along(c, P, e), Q, e), Along(c, P + Q, e);
    forall q | q in r ensures q in l && l[q] == r[q] {
      if q in P && q in Q {
        match e
        case Touch =>
        case Put(item) =>
        case Drop(id) =>
      }
    }
  }

  /** Touching paths that an edit then visits anyway is absorbed by the edit. */
  lemma AlongAbsorb(c: Contents, Q: set<string>, P: set<string>, e: Edit)
    requires Q <= P
    ensures Along(Along(c, Q, Touch), P, e) == Along(c, P, e)
  {
  }

  /** Dropping an id a node does not hold changes nothing. */
  lemma AlongDropAbsent(c: Contents, at: string, id: string)
    requires at in c && id !in c[at]
    ensures Along(c, {at}, Drop(id)) == c
  {
    assert c[at] - {id} == c[at];
  }

  /**
   * One step of a recursive walk: edit at `at`, touch the child under `path[0]`, then walk
   * from that child; together an edit along all of `path`.
   */
  lemma AlongStep(c: Contents, at: string, path: string, e: Edit)
    requires path != []
    ensures Along(Along(Along(c, {at}, e), {at + [path[0]]}, Touch), Path(at + [path[0]], path[1..]), e)
      == Along(c, Path(at, path), e)
  {
    var q := at + [path[0]];
    assert q == q + path[1..][..0];
    AlongAbsorb(Along(c, {at}, e), {q}, Path(q, path[1..]), e);
    PathCons(at, path);
    AlongTwice(c, {at}, Path(q, path[1..]), e);
  }

  /** One step of an iterative walk: touching the next node extends the walk by one character. */
  lemma TouchStep(c: Contents, at: string, path: string, k: nat)
    requires k < |path|
    ensures (at + path[..k]) + [path[k]] == at + path[..k + 1]
    ensures Along(Along(c, Path(at, path[..k]), Touch), {(at + path[..k]) + [path[k]]}, Touch)
      == Along(c, Path(at, path[..k + 1]), Touch)
  {
    assert path[..k + 1] == path[..k] + [path[k]];
    PathSnoc(at, path, k);
    AlongTwice(c, Path(at, path[..k]), {at + path[..k + 1]}, Touch);
  }

  lemma PathNil(at: string)
    ensures Path(at, []) == {at}
  {
    assert at + [][..0] == at;
  }

  /** The walk along `path` is the node itself followed by the walk from its child under `path[0]`. */
  lemma PathCons(at: string, path: string)
    requires path != []
    ensures Path(at, path) == {at} + Path(at + [path[0]], path[1..])
  {
    forall q ensures q in Path(at, path) <==> q in {at} + Path(at + [path[0]], path[1..]) {
      if q in Path(at, path) {
        var k :| 0 <= k <= |path| && q == at + path[..k];
        if k == 0 {
          assert q == at;
        } else {
          assert q == (at + [path[0]]) + path[1..][..k - 1] by {
            assert path[..k] == [path[0]] + path[1..][..k - 1];
          }
        }
      }
      if q in Path(at + [path[0]], path[1..]) {
        var k :| 0 <= k <= |path[1..]| && q == (at + [path[0]]) + path[1..][..k];
        assert q == at + path[..k + 1] by {
          assert path[..k + 1] == [path[0]] + path[1..][..k];
        }
      }
      if q == at {
        assert q == at + path[..0];
      }
    }
  }

  /** Walking one character further visits one more node. */
  lemma PathSnoc(at: string, path: string, k: nat)
    requires k < |path|
    ensures Path(at, path[..k + 1]) == Path(at, path[..k]) + {at + path[..k + 1]}
  {
    forall q ensures q in Path(at, path[..k + 1]) <==> q in Path(at, path[..k]) || q == at + path[..k + 1] {
      if q in Path(at, path[..k + 1]) {
        var j :| 0 <= j <= k + 1 && q == at + path[..k + 1][..j];
        if j <= k {
          assert path[..k + 1][..j] == path[..k][..j];
        } else {
          assert path[..k + 1][..j] == path[..k + 1];
        }
      }
      if q in Path(at, path[..k]) {
        var j :| 0 <= j <= k && q == at + path[..k][..j];
        assert path[..k + 1][..j] == path[..k][..j];
      }
      if q == at + path[..k + 1] {
        assert path[..k + 1][..k + 1] == path[..k + 1];
      }
    }
  }

  /** Walking along one more token visits that token's walk too. */
  lemma PathsSnoc(at: string, tokens: seq<string>, i: nat)
    requires i < |tokens|
    ensures Paths(at, tokens[..i + 1]) == Paths(at, tokens[..i]) + Path(at, tokens[i])
  {
    var a, b := tokens[..i + 1], tokens[..i];
    forall q ensures q in Paths(at, a) <==> q in Paths(at, b) + Path(at, tokens[i]) {
      if q in Paths(at, a) {
        var j, k :| 0 <= j < |a| && 0 <= k <= |a[j]| && q == at + a[j][..k];
        if j < i {
          assert a[j] == b[j];
        }
      }
      if q in Paths(at, b) {
        var j, k :| 0 <= j < |b| && 0 <= k <= |b[j]| && q == at + b[j][..k];
        assert a[j] == b[j];
      }
      if q in Path(at, tokens[i]) {
        var k :| 0 <= k <= |tokens[i]| && q == at + tokens[i][..k];
        assert a[i] == tokens[i];
      }
    }
  }

  /** The walks along the first token alone are that token's walk. */
  lemma PathsOne(tokens: seq<string>)
    requires tokens != []
    ensures Paths("", tokens[..1]) == Path("", tokens[0])
  {
    PathsSnoc("", tokens, 0);
    assert Paths("", tokens[..0]) == {};
  }

  /** From the root, the walks along `tokens` visit exactly the prefixes of the tokens. */
  lemma PathsRoot(tokens: seq<string>)
    ensures Paths("", tokens) == TokenPrefixes(tokens)
  {
    forall q ensures q in Paths("", tokens) <==> q in TokenPrefixes(tokens) {
      if q in Paths("", tokens) {
        var i, k :| 0 <= i < |tokens| && 0 <= k <= |tokens[i]| && q == "" + tokens[i][..k];
        assert q == tokens[i][..k];
      }
      if q in TokenPrefixes(tokens) {
        var i, k :| 0 <= i < |tokens| && 0 <= k <= |tokens[i]| && q == tokens[i][..k];
        assert q == "" + tokens[i][..k];
      }
    }
  }

  /** Every path of `a` is still in `b`, at the same node. */
  ghost predicate Extends(a: map<string, Node>, b: map<string, Node>) {
    forall p | p in a :: p in b && b[p] == a[p]
  }

  /** The fields of one node, as a value. */
  datatype NodeView = NodeView(node: Node, children: map<char, Node>, items: Items, path: string)

  /**
   * The shape the trie keeps: the node at each path records that path; a path's parent
   * has a node, whose child under the last character is the path's node; a child under
   * `ch` is the node at the path extended by `ch`; and items are keyed by their ids.
   */
  ghost predicate WellFormed(v: map<string, NodeView>) {
    PathsRecorded(v) && ParentsKnown(v) && ChildrenKnown(v) && ItemsKeyed(v)
  }

  ghost predicate PathsRecorded(v: map<string, NodeView>) {
    forall p | p in v :: v[p].path == p
  }

  ghost predicate ParentsKnown(v: map<string, NodeView>) {
    forall p, ch | p + [ch] in v :: p in v && ch in v[p].children
  }

  ghost predicate ChildrenKnown(v: map<string, NodeView>) {
    forall p, ch | p in v && ch in v[p].children :: p + [ch] in v && v[p].children[ch] == v[p + [ch]].node
  }

  ghost predicate ItemsKeyed(v: map<string, NodeView>) {
    forall p, id | p in v && id in v[p].items :: v[p].items[id].id == id
  }

  ghost function ContentsOf(v: map<string, NodeView>): Contents {
    map p | p in v :: v[p].items
  }

  /** The view after creating the child under `ch` of the node at `at`. */
  ghost function WithChild(v: map<string, NodeView>, at: string, ch: char, n: Node): map<string, NodeView>
    requires at in v
  {
    v[at := v[at].(children := v[at].children[ch := n])][at + [ch] := NodeView(n, map[], map[], at + [ch])]
  }

  /** The view after the items of the node at `at` became `m`. */
  ghost function WithItems(v: map<string, NodeView>, at: string, m: Items): map<string, NodeView>
    requires at in v
  {
    v[at := v[at].(items := m)]
  }

  /** A node without a child under `ch` has no descendant path `at + [ch]`. */
  lemma MissingChild(v: map<string, NodeView>, at: string, ch: char)
    requires ParentsKnown(v) && at in v && ch !in v[at].children
    ensures at + [ch] !in v
  {
  }

  /** Creating a missing child keeps the shape. */
  lemma CreateChildShape(v: map<string, NodeView>, at: string, ch: char, n: Node)
    requires WellFormed(v) && at in v && ch !in v[at].children
    ensures WellFormed(WithChild(v, at, ch, n))
  {
    MissingChild(v, at, ch);
    CreateChildParents(v, at, ch, n);
    CreateChildChildren(v, at, ch, n);
    CreateChildRest(v, at, ch, n);
  }

  lemma CreateChildParents(v: map<string, NodeView>, at: string, ch: char, n: Node)
    requires ParentsKnown(v) && at in v && at + [ch] !in v
    ensures ParentsKnown(WithChild(v, at, ch, n))
  {
    var v' := WithChild(v, at, ch, n);
    forall p, c | p + [c] in v' ensures p in v' && c in v'[p].children {
      if p + [c] == at + [ch] {
        assert p == (p + [c])[..|p|] == at && c == (p + [c])[|p|] == ch;
      }
    }
  }

  lemma CreateChildChildren(v: map<string, NodeView>, at: string, ch: char, n: Node)
    requires ChildrenKnown(v) && at in v && at + [ch] !in v
    ensures ChildrenKnown(WithChild(v, at, ch, n))
  {
    var q := at + [ch];
    var v' := WithChild(v, at, ch, n);
    forall p, c | p in v' && c in v'[p].children
      ensures p + [c] in v' && v'[p].children[c] == v'[p + [c]].node
    {
      if p != q && !(p == at && c == ch) {
        assert p in v && c in v[p].children;
        assert p + [c] in v && p + [c] != q;
      }
    }
  }

  lemma CreateChildRest(v: map<string, NodeView>, at: string, ch: char, n: Node)
    requires PathsRecorded(v) && ItemsKeyed(v) && at in v
    ensures PathsRecorded(WithChild(v, at, ch, n)) && ItemsKeyed(WithChild(v, at, ch, n))
  {
  }

  /** Creating a missing child adds one empty node to the contents. */
  lemma CreateChildContents(v: map<string, NodeView>, at: string, ch: char, n: Node)
    requires at in v && at + [ch] !in v
    ensures ContentsOf(WithChild(v, at, ch, n)) == Along(ContentsOf(v), {at + [ch]}, Touch)
  {
  }

  /** Replacing the items of one node keeps the shape, provided the new items are keyed by id. */
  lemma ItemsShape(v: map<string, NodeView>, at: string, m: Items)
    requires WellFormed(v) && at in v
    requires forall id | id in m :: m[id].id == id
    ensures WellFormed(WithItems(v, at, m))
  {
    var w := WithItems(v, at, m);
    assert PathsRecorded(w) && ItemsKeyed(w);
    assert ParentsKnown(w) && ChildrenKnown(w);
  }

  /** Replacing the items of one node changes the contents there and nowhere else. */
  lemma ItemsContents(v: map<string, NodeView>, at: string, m: Items)
    requires at in v
    ensures ContentsOf(WithItems(v, at, m)) == ContentsOf(v)[at := m]
  {
  }

  /** An edit at a single existing node replaces that node's items. */
  lemma AlongOne(c: Contents, at: string, e: Edit)
    requires at in c
    ensures Along(c, {at}, e) == c[at := Apply(e, c[at])]
  {
  }

  /** A node of the trie. Its methods take the `Trie` it belongs to and its path there. */
  class Node {
    var children: map<char, Node>
    var items: Items
    /** The node's path from the root. */
    ghost var path: string

    constructor (ghost path: string)
      ensures children == map[] && items == map[] && this.path == path
    {
      children := map[];
      items := map[];
      this.path := path;
    }

    /** Creates an empty child under `childKey`, which this node lacks. */
    method AddChild(childKey: char, ghost t: Trie, ghost at: string) returns (n: Node)
      requires t.Valid() && at in t.nodes && t.nodes[at] == this && childKey !in children
      modifies t, this
      ensures t.Valid() && at + [childKey] !in old(t.nodes)
      ensures fresh(n) && n.children == map[] && n.items == map[]
      ensures children == old(children)[childKey := n] && items == old(items)
      ensures t.nodes == old(t.nodes)[at + [childKey] := n] && t.Repr == old(t.Repr) + {n}
      ensures t.Contents() == Along(old(t.Contents()), {at + [childKey]}, Touch)
    {
      MissingChild(t.View(), at, childKey);
      ghost var q := at + [childKey];
      n := new Node(q);
      children := children[childKey := n];
      t.nodes := t.nodes[q := n];
      t.Repr := t.Repr + {n};
      assert q[..|q| - 1] == at;
      ChildAdded(t, n);
    }

    /**
     * `next_child_along_path`: the child under `path[0]`, created empty when there was
     * none. No node's items change.
     */
    method NextChildAlongPath(path: string, ghost t: Trie, ghost at: string) returns (child: Node)
      requires path != [] && t.Valid() && at in t.nodes && t.nodes[at] == this
      modifies t, this
      ensures t.Valid() && Extends(old(t.nodes), t.nodes) && fresh(t.Repr - old(t.Repr))
      ensures at + [path[0]] in t.nodes && child == t.nodes[at + [path[0]]]
      ensures children == old(children)[path[0] := child] && items == old(items)
      ensures path[0] in old(children) ==>
        child == old(children)[path[0]] && t.nodes == old(t.nodes) && t.Repr == old(t.Repr)
      ensures path[0] !in old(children) ==>
        fresh(child) && child.children == map[] && child.items == map[]
        && t.nodes == old(t.nodes)[at + [path[0]] := child] && t.Repr == old(t.Repr) + {child}
      ensures t.Contents() == Along(old(t.Contents()), {at + [path[0]]}, Touch)
    {
      var childKey := path[0];
      if childKey !in children {
        var n := AddChild(childKey, t, at);
      } else {
        ghost var v := t.View();
        assert at in v && childKey in v[at].children;
        AlongTouchOld(ContentsOf(v), at + [childKey]);
      }
      child := children[childKey];
    }

    /**
     * `child_at_path`: the descendant at the end of `path`, reached one character at a
     * time, creating the missing nodes empty; the node itself for the empty path.
     */
    method ChildAtPath(path: string, ghost t: Trie, ghost at: string) returns (child: Node)
      requires t.Valid() && at in t.nodes && t.nodes[at] == this
      modifies t, t.Repr
      ensures t.Valid() && Extends(old(t.nodes), t.nodes) && fresh(t.Repr - old(t.Repr))
      ensures at + path in t.nodes && child == t.nodes[at + path]
      ensures path == [] ==> child == this
      ensures t.Contents() == Along(old(t.Contents()), Path(at, path), Touch)
    {
      ghost var c0, n0, r0 := t.Contents(), t.nodes, t.Repr;
      child := this;
      var rest := path;
      ghost var k := 0;
      PathNil(at);
      assert path[..0] == [];
      AlongTouchOld(c0, at);
      while rest != []
        invariant 0 <= k <= |path| && rest == path[k..]
        invariant t.Valid() && Extends(n0, t.nodes) && fresh(t.Repr - r0)
        invariant at + path[..k] in t.nodes && child == t.nodes[at + path[..k]]
        invariant t.Contents() == Along(c0, Path(at, path[..k]), Touch)
        decreases |rest|
      {
        assert child in t.Repr;
        child := child.Descend(rest, path, k, t, at, c0);
        assert fresh(t.Repr - r0);
        rest := rest[1..];
        k := k + 1;
      }
      assert path[..k] == path;
    }

    /**
     * One pass of the loop of `child_at_path`, with `rest` the part of `path` still to walk:
     * from the node at `at + path[..k]` to the next one.
     */
    method Descend(rest: string, ghost path: string, ghost k: nat, ghost t: Trie, ghost at: string, ghost c0: Contents)
      returns (next: Node)
      requires k < |path| && rest == path[k..]
      requires t.Valid() && at + path[..k] in t.nodes && t.nodes[at + path[..k]] == this
      requires t.Contents() == Along(c0, Path(at, path[..k]), Touch)
      modifies t, this
      ensures t.Valid() && Extends(old(t.nodes), t.nodes) && fresh(t.Repr - old(t.Repr))
      ensures at + path[..k + 1] in t.nodes && next == t.nodes[at + path[..k + 1]]
      ensures t.Contents() == Along(c0, Path(at, path[..k + 1]), Touch)
    {
      assert rest[0] == path[k];
      next := NextChildAlongPath(rest, t, at + path[..k]);
      TouchStep(c0, at, path, k);
    }

    /** Stores `item` under its id in this node's items. */
    method StoreItem(item: Item, ghost t: Trie, ghost at: string)
      requires t.Valid() && at in t.nodes && t.nodes[at] == this
      modifies this
      ensures t.Valid() && t.nodes == old(t.nodes) && t.Repr == old(t.Repr)
      ensures t.Contents() == Along(old(t.Contents()), {at}, Put(item))
    {
      AlongOne(t.Contents(), at, Put(item));
      items := items[item.id := item];
      ItemsReplaced(t, this);
    }

    /** Removes `id` from this node's items if it is there; otherwise nothing changes. */
    method DiscardItem(id: string, ghost t: Trie, ghost at: string)
      requires t.Valid() && at in t.nodes && t.nodes[at] == this
      modifies this
      ensures t.Valid() && t.nodes == old(t.nodes) && t.Repr == old(t.Repr)
      ensures t.Contents() == Along(old(t.Contents()), {at}, Drop(id))
    {
      if id in items {
        AlongOne(t.Contents(), at, Drop(id));
        items := items - {id};
        ItemsReplaced(t, this);
      } else {
        AlongDropAbsent(t.Contents(), at, id);
      }
    }

    /** `__add_item_along_path`: stores `item` under its id at this node and every node along `path`. */
    method AddItemAlongPath(item: Item, path: string, ghost t: Trie, ghost at: string)
      requires t.Valid() && at in t.nodes && t.nodes[at] == this
      modifies t, t.Repr
      ensures t.Valid() && Extends(old(t.nodes), t.nodes) && fresh(t.Repr - old(t.Repr))
      ensures t.Contents() == Along(old(t.Contents()), Path(at, path), Put(item))
      decreases |path|
    {
      StoreItem(item, t, at);
      if path == [] {
        PathNil(at);
      } else {
        var next := NextChildAlongPath(path, t, at);
        assert fresh(t.Repr - old(t.Repr));
        ghost var q := at + [path[0]];
        next.AddItemAlongPath(item, path[1..], t, q);
        AlongStep(old(t.Contents()), at, path, Put(item));
      }
    }

    /** `__delete_item_along_path`: removes `item`'s id, where present, at this node and every node along `path`. */
    method DeleteItemAlongPath(item: Item, path: string, ghost t: Trie, ghost at: string)
      requires t.Valid() && at in t.nodes && t.nodes[at] == this
      modifies t, t.Repr
      ensures t.Valid() && Extends(old(t.nodes), t.nodes) && fresh(t.Repr - old(t.Repr))
      ensures t.Contents() == Along(old(t.Contents()), Path(at, path), Drop(item.id))
      decreases |path|
    {
      DiscardItem(item.id, t, at);
      if path == [] {
        PathNil(at);
      } else {
        var next := NextChildAlongPath(path, t, at);
        assert fresh(t.Repr - old(t.Repr));
        ghost var q := at + [path[0]];
        next.DeleteItemAlongPath(item, path[1..], t, q);
        AlongStep(old(t.Contents()), at, path, Drop(item.id));
      }
    }

    /** `add_item`: stores `item` along each of its tokens, starting at this node. */
    method AddItem(item: Item, ghost t: Trie, ghost at: string)
      requires t.Valid() && at in t.nodes && t.nodes[at] == this
      modifies t, t.Repr
      ensures t.Valid() && Extends(old(t.nodes), t.nodes) && fresh(t.Repr - old(t.Repr))
      ensures t.Contents() == Along(old(t.Contents()), Paths(at, item.tokens), Put(item))
    {
      assert Paths(at, item.tokens[..0]) == {};
      AlongNone(t.Contents(), Put(item));
      for i := 0 to |item.tokens|
        invariant t.Valid() && Extends(old(t.nodes), t.nodes) && fresh(t.Repr - old(t.Repr))
        invariant t.Contents() == Along(old(t.Contents()), Paths(at, item.tokens[..i]), Put(item))
      {
        AddItemAlongPath(item, item.tokens[i], t, at);
        PathsSnoc(at, item.tokens, i);
        AlongTwice(old(t.Contents()), Paths(at, item.tokens[..i]), Path(at, item.tokens[i]), Put(item));
      }
      assert item.tokens[..|item.tokens|] == item.tokens;
    }

    /** `delete_item`: removes `item`'s id along each of its tokens, starting at this node. */
    method DeleteItem(item: Item, ghost t: Trie, ghost at: string)
      requires t.Valid() && at in t.nodes && t.nodes[at] == this
      modifies t, t.Repr
      ensures t.Valid() && Extends(old(t.nodes), t.nodes) && fresh(t.Repr - old(t.Repr))
      ensures t.Contents() == Along(old(t.Contents()), Paths(at, item.tokens), Drop(item.id))
    {
      assert Paths(at, item.tokens[..0]) == {};
      AlongNone(t.Contents(), Drop(item.id));
      for i := 0 to |item.tokens|
        invariant t.Valid() && Extends(old(t.nodes), t.nodes) && fresh(t.Repr - old(t.Repr))
        invariant t.Contents() == Along(old(t.Contents()), Paths(at, item.tokens[..i]), Drop(item.id))
      {
        DeleteItemAlongPath(item, item.tokens[i], t, at);
        PathsSnoc(at, item.tokens, i);
        AlongTwice(old(t.Contents()), Paths(at, item.tokens[..i]), Path(at, item.tokens[i]), Drop(item.id));
      }
      assert item.tokens[..|item.tokens|] == item.tokens;
    }
  }

  /** The path of the parent of a non-root node. */
  function Parent(p: string): string
    requires p != []
  {
    p[..|p| - 1]
  }

  /** The view after the node at `Parent(n.path)` gained the fresh child `n`. */
  twostate lemma ViewWithChild(t: Trie, new n: Node)
    requires n.path != [] && Parent(n.path) in old(t.nodes) && n.path !in old(t.nodes)
    requires forall p | p in old(t.nodes) && p != Parent(n.path) :: old(t.nodes)[p] != old(t.nodes)[Parent(n.path)]
    requires fresh(n) && n.children == map[] && n.items == map[]
    requires var at, ch := Parent(n.path), n.path[|n.path| - 1];
      var node := old(t.nodes[at]);
      && node.children == old(node.children)[ch := n] && node.items == old(node.items) && node.path == old(node.path)
      && t.nodes == old(t.nodes)[n.path := n]
      && unchanged(old(t.nodes.Values) - {node})
    ensures Parent(n.path) in old(t.View())
    ensures t.View() == WithChild(old(t.View()), Parent(n.path), n.path[|n.path| - 1], n)
  {
    var at, ch := Parent(n.path), n.path[|n.path| - 1];
    assert n.path == at + [ch];
    var node := old(t.nodes[at]);
    var v, w := old(t.View()), WithChild(old(t.View()), at, ch, n);
    forall p | p in t.nodes ensures t.View()[p] == w[p] {
      if p != at + [ch] && p != at {
        assert old(t.nodes)[p] in old(t.nodes.Values);
      }
    }
  }

  /** After the node at `Parent(n.path)` gained the fresh child `n`, the trie keeps its shape and has one more, empty, node. */
  twostate lemma ChildAdded(t: Trie, new n: Node)
    requires n.path != [] && old(t.Valid()) && Parent(n.path) in old(t.nodes)
    requires fresh(n) && n.children == map[] && n.items == map[]
    requires var at, ch := Parent(n.path), n.path[|n.path| - 1];
      var node := old(t.nodes[at]);
      && ch !in old(node.children)
      && node.children == old(node.children)[ch := n] && node.items == old(node.items) && node.path == old(node.path)
      && t.nodes == old(t.nodes)[n.path := n] && t.Repr == old(t.Repr) + {n}
      && unchanged(old(t.nodes.Values) - {node})
    ensures t.Valid()
    ensures t.Contents() == Along(old(t.Contents()), {n.path}, Touch)
  {
    var at, ch := Parent(n.path), n.path[|n.path| - 1];
    assert n.path == at + [ch];
    var v := old(t.View());
    MissingChild(v, at, ch);
    assert forall p | p in old(t.nodes) && p != at :: old(t.nodes)[p] != old(t.nodes)[at] by {
      forall p | p in old(t.nodes) && p != at ensures old(t.nodes)[p] != old(t.nodes)[at] {
        assert v[p].path == p && v[at].path == at;
      }
    }
    ViewWithChild(t, n);
    CreateChildShape(v, at, ch, n);
    CreateChildContents(v, at, ch, n);
  }

  /** The view after the items of `node` were replaced. */
  twostate lemma ViewWithItems(t: Trie, new node: Node)
    requires old(allocated(node))
    requires old(node.path) in old(t.nodes) && old(t.nodes[node.path]) == node
    requires forall p | p in old(t.nodes) && p != old(node.path) :: old(t.nodes)[p] != node
    requires node.children == old(node.children) && node.path == old(node.path)
    requires t.nodes == old(t.nodes) && unchanged(old(t.nodes.Values) - {node})
    ensures node.path in old(t.View())
    ensures t.View() == WithItems(old(t.View()), node.path, node.items)
  {
    var w := WithItems(old(t.View()), node.path, node.items);
    forall p | p in t.nodes ensures t.View()[p] == w[p] {
      if p != node.path {
        assert old(t.nodes)[p] in old(t.nodes.Values);
      }
    }
  }

  /** After the items of `node` were replaced by items keyed by id, the trie keeps its shape and only that node's items changed. */
  twostate lemma ItemsReplaced(t: Trie, new node: Node)
    requires old(allocated(node))
    requires old(t.Valid()) && old(node.path) in old(t.nodes) && old(t.nodes[node.path]) == node
    requires node.children == old(node.children) && node.path == old(node.path)
    requires forall id | id in node.items :: node.items[id].id == id
    requires t.nodes == old(t.nodes) && t.Repr == old(t.Repr) && unchanged(old(t.nodes.Values) - {node})
    ensures t.Valid()
    ensures t.Contents() == old(t.Contents())[node.path := node.items]
  {
    var at, v := node.path, old(t.View());
    assert forall p | p in old(t.nodes) && p != at :: old(t.nodes)[p] != node by {
      forall p | p in old(t.nodes) && p != at ensures old(t.nodes)[p] != node {
        assert v[p].path == p && v[at].path == at;
      }
    }
    ViewWithItems(t, node);
    ItemsShape(v, at, node.items);
    ItemsContents(v, at, node.items);
  }

  /** Every node's items are stored under their own ids. */
  ghost predicate Keyed(c: Contents) {
    forall p, id | p in c && id in c[p] :: c[p][id].id == id
  }

  /** A valid trie stores every item under its own id. */
  lemma KeyedContents(t: Trie)
    requires t.Valid()
    ensures Keyed(t.Contents())
  {
  }

  /** The trie: its root (the global `trie`) and, as ghost state, the node at each path. */
  class Trie {
    const root: Node
    ghost var nodes: map<string, Node>
    /** Every node allocated for the trie. */
    ghost var Repr: set<Node>

    /** The fields of the node at each path. */
    ghost function View(): map<string, NodeView>
      reads this, nodes.Values
    {
      map p | p in nodes :: NodeView(nodes[p], nodes[p].children, nodes[p].items, nodes[p].path)
    }

    ghost predicate Valid()
      reads this, Repr, nodes.Values
    {
      && "" in nodes && nodes[""] == root
      && (forall p | p in nodes :: nodes[p] in Repr)
      && WellFormed(View())
    }

    /** The items of the node at each path. */
    ghost function Contents(): Contents
      reads this, nodes.Values
    {
      ContentsOf(View())
    }

    constructor ()
      ensures Valid() && Contents() == map["" := map[]] && fresh(Repr)
    {
      var r := new Node("");
      root := r;
      nodes := map["" := r];
      Repr := {r};
    }
  }
}
