/**
 * The module-level operations of typeahead.py over the global trie: `unsorted_query`,
 * `add`, `delete` and `sorted_query_with_boosts` (returning the ids it would print).
 * Their effect on the trie is stated through the value functions `Candidates`,
 * `Added` and `Deleted` on `Contents`, whose properties are proved here: against the
 * linear scan's match rule, for histories in which no live id is added again.
 */
module Typeahead {
  import opened Wrappers
  import opened Text
  import opened Boosts
  import opened Sorting
  import opened TypeaheadItem
  import opened TypeaheadTrie

  /** The items of `m` whose id is also in `other`: the dict comprehension of `unsorted_query`. */
  function Restrict(m: Items, other: Items): Items {
    map id | id in m && id in other :: m[id]
  }

  /** What `unsorted_query(tokens)` returns: the items at `tokens[0]`, narrowed by each later token. */
  function Candidates(c: Contents, tokens: seq<string>): Items
    requires tokens != []
    decreases |tokens|
  {
    if |tokens| == 1 then Get(c, tokens[0])
    else Restrict(Candidates(c, tokens[..|tokens| - 1]), Get(c, tokens[|tokens| - 1]))
  }

  /** An id is a candidate exactly when every token's node holds it; the item is the one at `tokens[0]`. */
  lemma {:induction false} CandidatesIff(c: Contents, tokens: seq<string>)
    requires tokens != []
    ensures forall id :: id in Candidates(c, tokens) <==> forall j | 0 <= j < |tokens| :: id in Get(c, tokens[j])
    ensures forall id | id in Candidates(c, tokens) :: Candidates(c, tokens)[id] == Get(c, tokens[0])[id]
    decreases |tokens|
  {
    if |tokens| > 1 {
      var init := tokens[..|tokens| - 1];
      CandidatesIff(c, init);
      forall id ensures id in Candidates(c, tokens) <==> forall j | 0 <= j < |tokens| :: id in Get(c, tokens[j]) {
        if forall j | 0 <= j < |tokens| :: id in Get(c, tokens[j]) {
          forall j | 0 <= j < |init| ensures id in Get(c, init[j]) {
            assert init[j] == tokens[j];
          }
        }
        if id in Candidates(c, tokens) {
          assert Candidates(c, tokens) == Restrict(Candidates(c, init), Get(c, tokens[|tokens| - 1]));
          forall j | 0 <= j < |tokens| ensures id in Get(c, tokens[j]) {
            if j < |init| {
              assert init[j] == tokens[j];
            }
          }
        }
      }
      assert init[0] == tokens[0];
    }
  }

  /** The items at any path after an edit along `P`. */
  lemma AlongGet(c: Contents, P: set<string>, e: Edit, p: string)
    ensures Get(Along(c, P, e), p) == if p in P then Apply(e, Get(c, p)) else Get(c, p)
  {
  }

  /** Candidates are keyed by their ids when the trie's items are. */
  lemma CandidatesKeyed(c: Contents, tokens: seq<string>)
    requires Keyed(c) && tokens != []
    ensures forall id | id in Candidates(c, tokens) :: Candidates(c, tokens)[id].id == id
  {
    CandidatesIff(c, tokens);
  }

  /** Touching nodes leaves every path's items as they were. */
  lemma TouchKeepsItems(c: Contents, P: set<string>, p: string)
    ensures Get(Along(c, P, Touch), p) == Get(c, p)
  {
  }

  /** Touching nodes leaves every query's candidates as they were. */
  lemma {:induction false} TouchKeepsCandidates(c: Contents, P: set<string>, tokens: seq<string>)
    requires tokens != []
    ensures Candidates(Along(c, P, Touch), tokens) == Candidates(c, tokens)
    decreases |tokens|
  {
    TouchKeepsItems(c, P, tokens[|tokens| - 1]);
    if |tokens| > 1 {
      TouchKeepsCandidates(c, P, tokens[..|tokens| - 1]);
    }
  }

  /** The trie after `add_item(item)` from the root: `item` stored along every prefix of its tokens. */
  ghost function Added(c: Contents, item: Item): Contents {
    Along(c, TokenPrefixes(item.tokens), Put(item))
  }

  /**
   * The trie after `delete(id)`: when the root holds `id`, that item's id dropped along
   * every prefix of the tokens of the item the root holds; otherwise unchanged.
   */
  ghost function Deleted(c: Contents, id: string): Contents {
    if id in Get(c, "") then Along(c, TokenPrefixes(Get(c, "")[id].tokens), Drop(id)) else c
  }

  /** After adding, every prefix of every token holds the item, and no other id's entries changed. */
  lemma AddedStores(c: Contents, item: Item)
    ensures forall i, k | 0 <= i < |item.tokens| && 0 <= k <= |item.tokens[i]| ::
      item.id in Get(Added(c, item), item.tokens[i][..k]) && Get(Added(c, item), item.tokens[i][..k])[item.id] == item
    ensures forall p :: Get(Added(c, item), p) - {item.id} == Get(c, p) - {item.id}
    ensures forall p :: !AnyStartsWith(item.tokens, p) ==> Get(Added(c, item), p) == Get(c, p)
  {
    var r: Contents := Added(c, item);
    forall i, k | 0 <= i < |item.tokens| && 0 <= k <= |item.tokens[i]|
      ensures item.id in Get(r, item.tokens[i][..k]) && Get(r, item.tokens[i][..k])[item.id] == item
    {
      assert item.tokens[i][..k] in TokenPrefixes(item.tokens);
    }
    forall p ensures Get(r, p) - {item.id} == Get(c, p) - {item.id} {
      if p in TokenPrefixes(item.tokens) {
        assert Get(r, p) == Get(c, p)[item.id := item];
      }
    }
    forall p | !AnyStartsWith(item.tokens, p) ensures Get(r, p) == Get(c, p) {
      TokenPrefixesIff(item.tokens, p);
    }
  }

  /** Dropping along the tokens removes the id from every prefix of every token and touches no other id. */
  lemma DroppedAlong(c: Contents, tokens: seq<string>, id: string)
    ensures forall i, k | 0 <= i < |tokens| && 0 <= k <= |tokens[i]| ::
      id !in Get(Along(c, TokenPrefixes(tokens), Drop(id)), tokens[i][..k])
    ensures forall p :: Get(Along(c, TokenPrefixes(tokens), Drop(id)), p) - {id} == Get(c, p) - {id}
  {
    var r := Along(c, TokenPrefixes(tokens), Drop(id));
    forall i, k | 0 <= i < |tokens| && 0 <= k <= |tokens[i]| ensures id !in Get(r, tokens[i][..k]) {
      assert tokens[i][..k] in TokenPrefixes(tokens);
    }
  }

  /** Dropping an id that no visited node holds only touches the nodes. */
  lemma DropAbsentIsTouch(c: Contents, P: set<string>, id: string)
    requires forall p | p in P :: id !in Get(c, p)
    ensures Along(c, P, Drop(id)) == Along(c, P, Touch)
  {
    var l, r := Along(c, P, Drop(id)), Along(c, P, Touch);
    forall q | q in P ensures l[q] == r[q] {
      assert Get(c, q) - {id} == Get(c, q);
    }
  }

  /**
   * The trie holds exactly the live items at the prefixes of their tokens: `id` is at
   * path `p` iff it is live and one of its tokens starts with `p`, and it is that item.
   * This is what a history without re-added live ids keeps.
   */
  ghost predicate Reflects(c: Contents, live: map<string, Item>) {
    forall p, id :: (id in Get(c, p) <==> id in live && AnyStartsWith(live[id].tokens, p))
      && (id in Get(c, p) ==> Get(c, p)[id] == live[id])
  }

  /** The fresh trie reflects no live items. */
  lemma ReflectsInitial()
    ensures Reflects(map["" := map[]], map[])
  {
  }

  /** The root holds exactly the live items that have at least one token. */
  lemma ReflectsRoot(c: Contents, live: map<string, Item>, id: string)
    requires Reflects(c, live)
    ensures id in Get(c, "") <==> id in live && live[id].tokens != []
  {
    if id in live && live[id].tokens != [] {
      assert StartsWith(live[id].tokens[0], "");
    }
  }

  /** Adding an item whose id the root does not hold keeps the trie reflecting the live items. */
  lemma ReflectsAdd(c: Contents, live: map<string, Item>, item: Item)
    requires Reflects(c, live) && item.id !in Get(c, "")
    ensures Reflects(Added(c, item), live[item.id := item])
  {
    var r, live' := Added(c, item), live[item.id := item];
    ReflectsRoot(c, live, item.id);
    forall p, id ensures (id in Get(r, p) <==> id in live' && AnyStartsWith(live'[id].tokens, p))
      && (id in Get(r, p) ==> Get(r, p)[id] == live'[id])
    {
      AlongGet(c, TokenPrefixes(item.tokens), Put(item), p);
      TokenPrefixesIff(item.tokens, p);
      if id == item.id && id in live {
        assert !AnyStartsWith(live[id].tokens, p);
      }
    }
  }

  /** Deleting keeps the trie reflecting the live items, less the deleted id. */
  lemma ReflectsDelete(c: Contents, live: map<string, Item>, id: string)
    requires Reflects(c, live)
    ensures Reflects(Deleted(c, id), live - {id})
  {
    var live' := live - {id};
    ReflectsRoot(c, live, id);
    if id in Get(c, "") {
      var r: Contents := Deleted(c, id);
      var tokens := Get(c, "")[id].tokens;
      assert tokens == live[id].tokens;
      forall p, x ensures (x in Get(r, p) <==> x in live' && AnyStartsWith(live'[x].tokens, p))
        && (x in Get(r, p) ==> Get(r, p)[x] == live'[x])
      {
        AlongGet(c, TokenPrefixes(tokens), Drop(id), p);
        TokenPrefixesIff(tokens, p);
      }
    } else {
      forall p, x ensures (x in Get(c, p) <==> x in live' && AnyStartsWith(live'[x].tokens, p))
        && (x in Get(c, p) ==> Get(c, p)[x] == live'[x])
      {
        if x == id && id in live {
          assert !AnyStartsWith(live[id].tokens, p);
        }
      }
    }
  }

  /** Touching nodes, as queries do, keeps the trie reflecting the live items. */
  lemma ReflectsTouch(c: Contents, live: map<string, Item>, P: set<string>)
    requires Reflects(c, live)
    ensures Reflects(Along(c, P, Touch), live)
  {
    forall p, id ensures (id in Get(Along(c, P, Touch), p) <==> id in live && AnyStartsWith(live[id].tokens, p))
      && (id in Get(Along(c, P, Touch), p) ==> Get(Along(c, P, Touch), p)[id] == live[id])
    {
      TouchKeepsItems(c, P, p);
    }
  }

  /**
   * On a trie reflecting the live items, the candidates of a query are exactly the live
   * items that the linear scan's match rule accepts.
   */
  lemma CandidatesMatch(c: Contents, live: map<string, Item>, tokens: seq<string>)
    requires Reflects(c, live) && tokens != []
    ensures forall id :: id in Candidates(c, tokens) <==> id in live && Matches(live[id].tokens, tokens)
    ensures forall id | id in Candidates(c, tokens) :: Candidates(c, tokens)[id] == live[id]
  {
    CandidatesIff(c, tokens);
  }

  /** `trie.child_at_path(token).items`: the items at `token`'s node, creating the nodes on the way. */
  method ItemsAt(t: Trie, token: string) returns (items: Items)
    requires t.Valid()
    modifies t, t.Repr
    ensures t.Valid() && fresh(t.Repr - old(t.Repr))
    ensures items == Get(old(t.Contents()), token)
    ensures t.Contents() == Along(old(t.Contents()), Path("", token), Touch)
  {
    ghost var c0 := t.Contents();
    var node := t.root.ChildAtPath(token, t, "");
    assert "" + token == token;
    TouchKeepsItems(c0, Path("", token), token);
    items := node.items;
  }

  /** One more token of a query: its walk is added, and the candidates are narrowed by its items. */
  lemma QueryStep(c: Contents, tokens: seq<string>, i: nat)
    requires 0 < i < |tokens|
    ensures Along(Along(c, Paths("", tokens[..i]), Touch), Path("", tokens[i]), Touch)
      == Along(c, Paths("", tokens[..i + 1]), Touch)
    ensures Get(Along(c, Paths("", tokens[..i]), Touch), tokens[i]) == Get(c, tokens[i])
    ensures Candidates(c, tokens[..i + 1]) == Restrict(Candidates(c, tokens[..i]), Get(c, tokens[i]))
  {
    PathsSnoc("", tokens, i);
    AlongTwice(c, Paths("", tokens[..i]), Path("", tokens[i]), Touch);
    TouchKeepsItems(c, Paths("", tokens[..i]), tokens[i]);
    assert tokens[..i + 1][..i] == tokens[..i];
  }

  /** One pass of the loop of `unsorted_query`: keeps the candidates found at `tokens[i]`'s node. */
  method NarrowBy(t: Trie, ghost c0: Contents, tokens: seq<string>, i: nat, found: Items) returns (narrowed: Items)
    requires 0 < i < |tokens|
    requires t.Valid() && t.Contents() == Along(c0, Paths("", tokens[..i]), Touch)
    requires found == Candidates(c0, tokens[..i])
    modifies t, t.Repr
    ensures t.Valid() && fresh(t.Repr - old(t.Repr))
    ensures t.Contents() == Along(c0, Paths("", tokens[..i + 1]), Touch)
    ensures narrowed == Candidates(c0, tokens[..i + 1])
  {
    QueryStep(c0, tokens, i);
    var tokenItems := ItemsAt(t, tokens[i]);
    narrowed := map id | id in found && id in tokenItems :: found[id];
  }

  /**
   * `unsorted_query`: walks to the node of each token, creating missing nodes, and
   * intersects the items found there. Without tokens the source fails on `tokens[0]`
   * (`None` here) before touching the trie.
   */
  method UnsortedQuery(t: Trie, tokens: seq<string>) returns (r: Option<Items>)
    requires t.Valid()
    modifies t, t.Repr
    ensures t.Valid() && fresh(t.Repr - old(t.Repr))
    ensures tokens == [] ==> r == None
    ensures tokens != [] ==> r == Some(Candidates(old(t.Contents()), tokens))
    ensures t.Contents() == Along(old(t.Contents()), TokenPrefixes(tokens), Touch)
  {
    PathsRoot(tokens);
    if tokens == [] {
      assert TokenPrefixes(tokens) == {};
      AlongNone(t.Contents(), Touch);
      return None;
    }
    ghost var c0 := t.Contents();
    var found := ItemsAt(t, tokens[0]);
    PathsOne(tokens);
    for i := 1 to |tokens|
      invariant t.Valid() && fresh(t.Repr - old(t.Repr))
      invariant t.Contents() == Along(c0, Paths("", tokens[..i]), Touch)
      invariant found == Candidates(c0, tokens[..i])
    {
      found := NarrowBy(t, c0, tokens, i, found);
    }
    assert tokens[..|tokens|] == tokens;
    r := Some(found);
  }

  /** `add`: a new item, stamped by the counter, stored along every prefix of its tokens. */
  method Add(t: Trie, counter: ItemCounter, kind: string, id: string, rawScore: real, tokens: seq<string>)
    requires t.Valid()
    modifies t, t.Repr, counter
    ensures t.Valid() && fresh(t.Repr - old(t.Repr))
    ensures counter.itemsCreated == old(counter.itemsCreated) + 1
    ensures t.Contents() == Added(old(t.Contents()), Item(old(counter.itemsCreated), kind, id, rawScore, tokens))
  {
    var item := counter.NewItem(kind, id, rawScore, tokens);
    t.root.AddItem(item, t, "");
    PathsRoot(tokens);
  }

  /** `delete`: when the root holds `id`, removes it along the tokens of the item stored there. */
  method Delete(t: Trie, id: string)
    requires t.Valid()
    modifies t, t.Repr
    ensures t.Valid() && fresh(t.Repr - old(t.Repr))
    ensures t.Contents() == Deleted(old(t.Contents()), id)
  {
    ghost var v := t.View();
    if id in t.root.items {
      var item := t.root.items[id];
      assert "" in v && id in v[""].items;
      t.root.DeleteItem(item, t, "");
      PathsRoot(item.tokens);
    }
  }

  /** The length of Python's `s[0:n]` for a sequence of length `len`. */
  function SliceLength(len: nat, n: int): nat {
    if n >= 0 then (if n < len then n else len) else (if len + n > 0 then len + n else 0)
  }

  /** Python's `s[0:n]`: the first `n` elements, or all but the last `-n` when `n` is negative. */
  function Slice<T>(s: seq<T>, n: int): (r: seq<T>)
    ensures |r| == SliceLength(|s|, n) && r == s[..|r|]
  {
    if n >= 0 then (if n < |s| then s[..n] else s) else (if |s| + n > 0 then s[..|s| + n] else [])
  }

  /** The sort key of the first sort: the creation order. */
  function CreationKey(item: Item): real {
    item.creationOrderId as real
  }

  /** The sort key of the second sort: the boosted score. */
  function ScoreKey(boosts: seq<Boost>): Item -> real {
    (item: Item) => item.BoostedScore(boosts)
  }

  /** The two stable descending sorts of `sorted_query_with_boosts`. */
  function Ranked(items: seq<Item>, boosts: seq<Boost>): seq<Item> {
    SortDesc(SortDesc(items, CreationKey), ScoreKey(boosts))
  }

  /** The ranking orders by boosted score descending, ties by creation order descending, and only permutes. */
  lemma RankedOrder(items: seq<Item>, boosts: seq<Boost>)
    ensures multiset(Ranked(items, boosts)) == multiset(items)
    ensures SortedLex(Ranked(items, boosts), ScoreKey(boosts), CreationKey)
  {
    SortDescSorted(items, CreationKey);
    SortDescLex(SortDesc(items, CreationKey), ScoreKey(boosts), CreationKey);
  }

  function Ids(items: seq<Item>): (r: seq<string>)
    ensures |r| == |items| && forall i | 0 <= i < |items| :: r[i] == items[i].id
  {
    seq(|items|, i requires 0 <= i < |items| => items[i].id)
  }

  /** The items of `m` in some order, each once, as `dict.values()` lists them. */
  method Values(m: Items) returns (s: seq<Item>)
    requires forall id | id in m :: m[id].id == id
    ensures |s| == |m|
    ensures forall i | 0 <= i < |s| :: s[i].id in m && m[s[i].id] == s[i]
    ensures forall i, j | 0 <= i < j < |s| :: s[i].id != s[j].id
    ensures forall id | id in m :: m[id] in s
  {
    s := [];
    var rest := m.Keys;
    while rest != {}
      invariant rest <= m.Keys && |s| + |rest| == |m|
      invariant forall i | 0 <= i < |s| :: s[i].id in m && s[i].id !in rest && m[s[i].id] == s[i]
      invariant forall i, j | 0 <= i < j < |s| :: s[i].id != s[j].id
      invariant forall id | id in m && id !in rest :: m[id] in s
      decreases |rest|
    {
      var id :| id in rest;
      s := s + [m[id]];
      rest := rest - {id};
    }
  }

  /**
   * `ids` is a correct answer of `sorted_query_with_boosts` over the candidates `cands`:
   * as many as the slice keeps, distinct candidates, ordered by boosted score and then
   * creation order, both descending, and none ranked below a candidate left out.
   */
  ghost predicate Answers(ids: seq<string>, cands: Items, n: int, boosts: seq<Boost>) {
    && |ids| == SliceLength(|cands|, n)
    && (forall i | 0 <= i < |ids| :: ids[i] in cands)
    && (forall i, j | 0 <= i < j < |ids| :: ids[i] != ids[j])
    && (forall i, j | 0 <= i < j < |ids| :: AtLeastLex(cands[ids[i]], cands[ids[j]], ScoreKey(boosts), CreationKey))
    && (forall i, id | 0 <= i < |ids| && id in cands && id !in ids ::
         AtLeastLex(cands[ids[i]], cands[id], ScoreKey(boosts), CreationKey))
  }

  lemma {:induction false} DistinctCount<T>(s: seq<T>, x: T)
    requires forall i, j | 0 <= i < j < |s| :: s[i] != s[j]
    ensures multiset(s)[x] <= 1
  {
    if s != [] {
      assert s == [s[0]] + s[1..];
      DistinctCount(s[1..], x);
      if x == s[0] {
        assert x !in s[1..];
      }
    }
  }

  lemma RepeatCount<T>(s: seq<T>, i: nat, j: nat)
    requires i < j < |s| && s[i] == s[j]
    ensures multiset(s)[s[i]] >= 2
  {
    assert s == s[..j] + [s[j]] + s[j + 1..];
    assert s[i] in s[..j];
  }

  /** `s` lists the items of `cands` in some order, each once. */
  ghost predicate Lists(s: seq<Item>, cands: Items) {
    && (forall id | id in cands :: cands[id].id == id)
    && |s| == |cands|
    && (forall i | 0 <= i < |s| :: s[i].id in cands && cands[s[i].id] == s[i])
    && (forall i, j | 0 <= i < j < |s| :: s[i].id != s[j].id)
    && (forall id | id in cands :: cands[id] in s)
  }

  /** Ranking a listing of the candidates gives another listing of them, in ranking order. */
  lemma RankedLists(values: seq<Item>, cands: Items, boosts: seq<Boost>)
    requires Lists(values, cands)
    ensures Lists(Ranked(values, boosts), cands)
    ensures SortedLex(Ranked(values, boosts), ScoreKey(boosts), CreationKey)
  {
    var ranked := Ranked(values, boosts);
    RankedOrder(values, boosts);
    forall k | 0 <= k < |ranked| ensures ranked[k].id in cands && cands[ranked[k].id] == ranked[k] {
      assert ranked[k] in multiset(values);
    }
    forall i, j | 0 <= i < j < |ranked| ensures ranked[i].id != ranked[j].id {
      if ranked[i].id == ranked[j].id {
        RepeatCount(ranked, i, j);
        DistinctCount(values, ranked[i]);
      }
    }
    forall id | id in cands ensures cands[id] in ranked {
      assert cands[id] in multiset(ranked);
    }
  }

  /** No item left out of the slice of a ranked listing ranks above one kept. */
  lemma SliceTop(ranked: seq<Item>, cands: Items, n: int, boosts: seq<Boost>)
    requires Lists(ranked, cands) && SortedLex(ranked, ScoreKey(boosts), CreationKey)
    ensures var ids := Ids(Slice(ranked, n));
      forall i, id | 0 <= i < |ids| && id in cands && id !in ids ::
        AtLeastLex(cands[ids[i]], cands[id], ScoreKey(boosts), CreationKey)
  {
    var top := Slice(ranked, n);
    var ids := Ids(top);
    forall i, id | 0 <= i < |ids| && id in cands && id !in ids
      ensures AtLeastLex(cands[ids[i]], cands[id], ScoreKey(boosts), CreationKey)
    {
      var k :| 0 <= k < |ranked| && ranked[k] == cands[id];
      assert ids[i] == ranked[i].id;
    }
  }

  /** The slice of a ranked listing is a correct answer. */
  lemma SliceAnswers(ranked: seq<Item>, cands: Items, n: int, boosts: seq<Boost>)
    requires Lists(ranked, cands) && SortedLex(ranked, ScoreKey(boosts), CreationKey)
    ensures Answers(Ids(Slice(ranked, n)), cands, n, boosts)
  {
    var top := Slice(ranked, n);
    var ids := Ids(top);
    assert forall i | 0 <= i < |ids| :: ids[i] == ranked[i].id && cands[ids[i]] == ranked[i];
    SliceTop(ranked, cands, n, boosts);
  }

  /** The ranking and slicing of `sorted_query_with_boosts`, on the listed candidates. */
  method Rank(found: Items, resultCount: int, boosts: seq<Boost>) returns (ids: seq<string>)
    requires forall id | id in found :: found[id].id == id
    ensures Answers(ids, found, resultCount, boosts)
  {
    var values := Values(found);
    var ranked := SortDesc(SortDesc(values, CreationKey), ScoreKey(boosts));
    RankedLists(values, found, boosts);
    SliceAnswers(ranked, found, resultCount, boosts);
    ids := Ids(Slice(ranked, resultCount));
  }

  /**
   * `sorted_query_with_boosts`: the candidates of `unsorted_query`, sorted by creation
   * order and then, stably, by boosted score, both descending, sliced to `result_count`;
   * the ids it prints.
   */
  method SortedQueryWithBoosts(t: Trie, resultCount: int, tokens: seq<string>, boosts: seq<Boost>)
    returns (r: Option<seq<string>>)
    requires t.Valid()
    modifies t, t.Repr
    ensures t.Valid() && fresh(t.Repr - old(t.Repr))
    ensures t.Contents() == Along(old(t.Contents()), TokenPrefixes(tokens), Touch)
    ensures tokens == [] ==> r == None
    ensures tokens != [] ==> r.Some? && Answers(r.value, Candidates(old(t.Contents()), tokens), resultCount, boosts)
  {
    ghost var c0 := t.Contents();
    KeyedContents(t);
    var found := UnsortedQuery(t, tokens);
    if found.None? {
      return None;
    }
    CandidatesKeyed(c0, tokens);
    var ids := Rank(found.value, resultCount, boosts);
    r := Some(ids);
  }

  /** An item without tokens is stored nowhere, not even at the root. */
  lemma EmptyTokensNotStored(c: Contents, item: Item)
    requires item.tokens == []
    ensures Added(c, item) == c
  {
    assert TokenPrefixes(item.tokens) == {};
    AlongNone(c, Put(item));
  }

  /**
   * Adding an id the root already holds leaves the earlier item on the paths the new
   * tokens do not share: after "u1" is added with token "ab" and again with token "c",
   * the query "a" still finds the first item, and still does after "u1" is deleted,
   * because the deletion follows only the tokens of the item at the root.
   */
  lemma StaleAfterReAdd()
    ensures var i1, i2 := Item(0, "user", "u1", 1.0, ["ab"]), Item(1, "user", "u1", 1.0, ["c"]);
      var c2 := Added(Added(map["" := map[]], i1), i2);
      && Candidates(c2, ["a"]) == map["u1" := i1]
      && !Reflects(c2, map["u1" := i2])
      && Candidates(Deleted(c2, "u1"), ["a"]) == map["u1" := i1]
      && "u1" !in Get(Deleted(c2, "u1"), "")
  {
    var i1, i2 := Item(0, "user", "u1", 1.0, ["ab"]), Item(1, "user", "u1", 1.0, ["c"]);
    var c0: Contents := map["" := map[]];
    var c1 := Added(c0, i1);
    var c2 := Added(c1, i2);
    assert StartsWith(i1.tokens[0], "a") && StartsWith(i1.tokens[0], "");
    assert AnyStartsWith(i1.tokens, "a") && AnyStartsWith(i1.tokens, "");
    assert StartsWith(i2.tokens[0], "") && AnyStartsWith(i2.tokens, "");
    assert !StartsWith("c", "a") by { assert "c"[..1][0] == 'c'; }
    TokenPrefixesIff(["ab"], "a");
    TokenPrefixesIff(["ab"], "");
    TokenPrefixesIff(["c"], "a");
    TokenPrefixesIff(["c"], "");
    AlongGet(c0, TokenPrefixes(i1.tokens), Put(i1), "a");
    AlongGet(c0, TokenPrefixes(i1.tokens), Put(i1), "");
    AlongGet(c1, TokenPrefixes(i2.tokens), Put(i2), "a");
    AlongGet(c1, TokenPrefixes(i2.tokens), Put(i2), "");
    assert Get(c2, "a") == map["u1" := i1];
    assert Get(c2, "") == map["u1" := i2];
    AlongGet(c2, TokenPrefixes(i2.tokens), Drop("u1"), "a");
    AlongGet(c2, TokenPrefixes(i2.tokens), Drop("u1"), "");
    assert !AnyStartsWith(i2.tokens, "a");
  }

  /** Every stored item was stamped before the counter reached `n`. */
  ghost predicate StampedBelow(c: Contents, n: nat) {
    forall p, id | p in c && id in c[p] :: c[p][id].creationOrderId < n
  }

  /** Items stored anywhere with the same creation stamp are the same item. */
  ghost predicate UniqueStamps(c: Contents) {
    forall p, id, q, id' | p in c && id in c[p] && q in c && id' in c[q] ::
      c[p][id].creationOrderId == c[q][id'].creationOrderId ==> c[p][id] == c[q][id']
  }

  /** Every item the edit can leave in the trie was there before or is the one it puts. */
  lemma AlongFrom(c: Contents, P: set<string>, e: Edit, p: string, id: string)
    requires p in Along(c, P, e) && id in Along(c, P, e)[p]
    ensures (e.Put? && Along(c, P, e)[p][id] == e.item)
      || (p in c && id in c[p] && Along(c, P, e)[p][id] == c[p][id])
  {
  }

  /** Adding an item stamped with the counter keeps stamps below the incremented counter and unique. */
  lemma StampsAdd(c: Contents, n: nat, item: Item)
    requires StampedBelow(c, n) && UniqueStamps(c) && item.creationOrderId == n
    ensures StampedBelow(Added(c, item), n + 1) && UniqueStamps(Added(c, item))
  {
    var r: Contents := Added(c, item);
    forall p: string, id: string | p in r && id in r[p] ensures r[p][id].creationOrderId < n + 1 {
      AlongFrom(c, TokenPrefixes(item.tokens), Put(item), p, id);
    }
    forall p: string, id: string, q: string, id': string | p in r && id in r[p] && q in r && id' in r[q]
      && r[p][id].creationOrderId == r[q][id'].creationOrderId
      ensures r[p][id] == r[q][id']
    {
      AlongFrom(c, TokenPrefixes(item.tokens), Put(item), p, id);
      AlongFrom(c, TokenPrefixes(item.tokens), Put(item), q, id');
    }
  }

  /** Deleting keeps every bound on and the uniqueness of the stamps. */
  lemma StampsDelete(c: Contents, n: nat, id: string)
    requires StampedBelow(c, n) && UniqueStamps(c)
    ensures StampedBelow(Deleted(c, id), n) && UniqueStamps(Deleted(c, id))
  {
    if id in Get(c, "") {
      var P := TokenPrefixes(Get(c, "")[id].tokens);
      var r: Contents := Deleted(c, id);
      forall p: string, x: string | p in r && x in r[p] ensures r[p][x].creationOrderId < n {
        AlongFrom(c, P, Drop(id), p, x);
      }
      forall p: string, x: string, q: string, x': string | p in r && x in r[p] && q in r && x' in r[q]
        && r[p][x].creationOrderId == r[q][x'].creationOrderId
        ensures r[p][x] == r[q][x']
      {
        AlongFrom(c, P, Drop(id), p, x);
        AlongFrom(c, P, Drop(id), q, x');
      }
    }
  }

  /** Touching nodes keeps every bound on and the uniqueness of the stamps. */
  lemma StampsTouch(c: Contents, n: nat, P: set<string>)
    requires StampedBelow(c, n) && UniqueStamps(c)
    ensures StampedBelow(Along(c, P, Touch), n) && UniqueStamps(Along(c, P, Touch))
  {
    var r: Contents := Along(c, P, Touch);
    forall p: string, x: string | p in r && x in r[p] ensures r[p][x].creationOrderId < n {
      AlongFrom(c, P, Touch, p, x);
    }
    forall p: string, x: string, q: string, x': string | p in r && x in r[p] && q in r && x' in r[q]
      && r[p][x].creationOrderId == r[q][x'].creationOrderId
      ensures r[p][x] == r[q][x']
    {
      AlongFrom(c, P, Touch, p, x);
      AlongFrom(c, P, Touch, q, x');
    }
  }

  /** No two candidates share a creation stamp. */
  ghost predicate StampsDistinct(cands: Items) {
    forall id, id' | id in cands && id' in cands ::
      cands[id].creationOrderId == cands[id'].creationOrderId ==> id == id'
  }

  /** In a trie with unique stamps, the candidates of a query have distinct stamps. */
  lemma CandidatesStampsDistinct(c: Contents, tokens: seq<string>)
    requires Keyed(c) && UniqueStamps(c) && tokens != []
    ensures StampsDistinct(Candidates(c, tokens))
  {
    CandidatesIff(c, tokens);
    CandidatesKeyed(c, tokens);
  }

  /**
   * Two answers that agree before position `k` rank the item the first one puts at `k`
   * no higher than the item the second one puts there.
   */
  lemma AnswerAtLeast(a: seq<string>, b: seq<string>, cands: Items, n: int, boosts: seq<Boost>, k: nat)
    requires Answers(a, cands, n, boosts) && Answers(b, cands, n, boosts)
    requires k < |a| && a[..k] == b[..k]
    ensures AtLeastLex(cands[b[k]], cands[a[k]], ScoreKey(boosts), CreationKey)
  {
    var x := a[k];
    if x != b[k] && x in b {
      assert forall j | 0 <= j < k :: b[j] == a[..k][j] && a[j] != a[k];
      var j :| 0 <= j < |b| && b[j] == x;
      assert k < j;
    }
  }

  /** Two answers to the same candidates with distinct stamps agree on their first `i` ids. */
  lemma {:induction false} AnswersAgree(a: seq<string>, b: seq<string>, cands: Items, n: int, boosts: seq<Boost>, i: nat)
    requires Answers(a, cands, n, boosts) && Answers(b, cands, n, boosts) && StampsDistinct(cands)
    requires i <= |a|
    ensures a[..i] == b[..i]
  {
    if i > 0 {
      var k := i - 1;
      AnswersAgree(a, b, cands, n, boosts, k);
      AnswerAtLeast(a, b, cands, n, boosts, k);
      AnswerAtLeast(b, a, cands, n, boosts, k);
      assert cands[a[k]].creationOrderId == cands[b[k]].creationOrderId;
      assert a[..i] == a[..k] + [a[k]] && b[..i] == b[..k] + [b[k]];
    }
  }

  /**
   * The answer of `sorted_query_with_boosts` is determined by the candidates alone when
   * their stamps are distinct: the order in which the dict hands out its values, which
   * decides the input of the two stable sorts, cannot change the ids returned.
   */
  lemma AnswersDetermined(a: seq<string>, b: seq<string>, cands: Items, n: int, boosts: seq<Boost>)
    requires Answers(a, cands, n, boosts) && Answers(b, cands, n, boosts) && StampsDistinct(cands)
    ensures a == b
  {
    AnswersAgree(a, b, cands, n, boosts, |a|);
    assert a == a[..|a|] && b == b[..|b|];
  }
}
