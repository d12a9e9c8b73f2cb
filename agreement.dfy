/**
 * How the trie engine (typeahead.py) relates to the linear scan (old_typeahead.py):
 * the same `add` and `delete` commands keep both describing the same live items, on
 * which both find the same matches; their boost rules agree when no type name follows
 * the first boost keyed by something else, and `BoostsDiffer` shows one case where
 * they differ.
 */
module Agreement {
  import opened Text
  import opened Boosts
  import opened TypeaheadItem
  import opened TypeaheadTrie
  import opened OldTypeahead
  import opened Typeahead

  /** The record the linear scan's `add` stores for the arguments an item was made from. */
  function AsEntry(item: Item): Entry {
    Entry(item.id, item.kind, item.rawScore, item.tokens)
  }

  /** The scan's dict holds, under the same ids, the entries of the live items. */
  ghost predicate Mirrors(live: map<string, Item>, entries: Entries) {
    && live.Keys == entries.Keys
    && forall id | id in live :: entries[id] == AsEntry(live[id])
  }

  /** The scan's boosted score after the first `i` boosts is the trie loop's score after them. */
  lemma {:induction false} BoostedPrefix(item: Item, boosts: seq<Boost>, i: nat)
    requires i <= |boosts|
    requires forall k | FirstNonType(boosts) <= k < |boosts| :: !IsTypeName(boosts[k].key)
    ensures Boosted(AsEntry(item), boosts[..i]) == item.ScoreAfter(boosts, i)
  {
    if i > 0 {
      BoostedPrefix(item, boosts, i - 1);
      assert boosts[..i][..i - 1] == boosts[..i - 1];
      assert boosts[..i][i - 1] == boosts[i - 1];
    }
  }

  /**
   * When every boost from the first non-type key on is keyed by a non-type name, the
   * precedence rule of `score_with_boosts` and the unconditional rule of `boosted_score`
   * give the same score.
   */
  lemma BoostsAgree(item: Item, boosts: seq<Boost>)
    requires forall k | FirstNonType(boosts) <= k < |boosts| :: !IsTypeName(boosts[k].key)
    ensures item.BoostedScore(boosts) == Boosted(AsEntry(item), boosts)
  {
    BoostedPrefix(item, boosts, |boosts|);
    assert boosts[..|boosts|] == boosts;
    item.ScoreAfterAll(boosts);
  }

  /**
   * A type boost after an id boost separates the rules: with `x:3` before `user:2`, the
   * scan still doubles a user's score while the trie engine no longer applies `user:2`.
   */
  lemma BoostsDiffer()
    ensures var item, boosts := Item(0, "user", "u1", 1.0, ["ab"]), [Boost("x", 3.0), Boost("user", 2.0)];
      item.BoostedScore(boosts) == 1.0 && Boosted(AsEntry(item), boosts) == 2.0
  {
    var item, boosts := Item(0, "user", "u1", 1.0, ["ab"]), [Boost("x", 3.0), Boost("user", 2.0)];
    assert !IsTypeName(boosts[0].key);
    assert FirstNonType(boosts) == 0;
    assert boosts[..0] == [] && boosts[0..] == boosts;
    assert boosts[..1] == [Boost("x", 3.0)] && boosts[..1][..0] == [];
    assert "x" != "u1" && "user" != "u1" && "x" != "user";
    assert Factor(boosts[0], "u1") == 1.0 && Factor(boosts[1], "u1") == 1.0;
    assert Scale(1.0, boosts[..1], "u1") == 1.0;
    var e := AsEntry(item);
    assert BoostFactor(e, boosts[0]) == 1.0 && BoostFactor(e, boosts[1]) == 2.0;
    assert Boosted(e, boosts[..1]) == 1.0;
  }

  /**
   * On a trie that reflects the live items and a scan dict that mirrors them, an id is a
   * candidate of `unsorted_query` exactly when the scan, run to the end, matches its entry.
   */
  lemma MatchesAgree(c: Contents, live: map<string, Item>, entries: Entries, order: seq<string>, query: seq<string>)
    requires Reflects(c, live) && Mirrors(live, entries) && KeyedById(entries) && Enumerates(order, entries)
    requires query != []
    ensures forall id :: id in Candidates(c, query) <==> id in entries && entries[id] in Matching(entries, order, query)
    ensures forall id | id in Candidates(c, query) :: AsEntry(Candidates(c, query)[id]) == entries[id]
  {
    CandidatesMatch(c, live, query);
    MatchingSound(entries, order, query);
    MatchingComplete(entries, order, query);
    forall id | id in entries && Matches(entries[id].data, query)
      ensures entries[id] in Matching(entries, order, query)
    {
      var k :| 0 <= k < |order| && order[k] == id;
    }
  }

  /**
   * `add` in both engines: the trie engine adds the item (to a trie that does not hold
   * its id at the root), the scan stores the record of the same arguments; the trie
   * still reflects, and the dict still mirrors, the live items with the item put in.
   */
  lemma AddAgrees(c: Contents, live: map<string, Item>, entries: Entries, item: Item)
    requires Reflects(c, live) && Mirrors(live, entries) && item.id !in Get(c, "")
    ensures Reflects(Added(c, item), live[item.id := item])
    ensures Mirrors(live[item.id := item], entries[item.id := Entry(item.id, item.kind, item.rawScore, item.tokens)])
  {
    ReflectsAdd(c, live, item);
  }

  /**
   * `delete` in both engines: the trie engine deletes along the root's item, and the scan
   * removes the key, or fails with the dict unchanged when the key is absent; either way
   * the trie reflects, and the dict mirrors, the live items without `id`.
   */
  lemma DeleteAgrees(c: Contents, live: map<string, Item>, entries: Entries, id: string)
    requires Reflects(c, live) && Mirrors(live, entries)
    ensures Reflects(Deleted(c, id), live - {id})
    ensures id in entries ==> Mirrors(live - {id}, entries - {id})
    ensures id !in entries ==> Mirrors(live - {id}, entries)
  {
    ReflectsDelete(c, live, id);
    if id !in entries {
      assert live - {id} == live;
    }
  }
}
