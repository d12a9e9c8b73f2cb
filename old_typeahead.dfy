/**
 * The brute-force engine (old_typeahead.py): a dict of entries keyed by id, a linear
 * scan for matches that stops after `result_count` of them, and a stable sort by
 * (boosted) score.
 */
module OldTypeahead {
  import opened Wrappers
  import opened Text
  import opened Boosts
  import opened Sorting

  /** The dict `add` stores: `id`, `type`, `score` and `data` (the tokens). */
  datatype Entry = Entry(id: string, kind: string, score: real, data: seq<string>)

  type Entries = map<string, Entry>

  /** Each entry is stored under its own id. */
  ghost predicate KeyedById(entries: Entries) {
    forall id | id in entries :: entries[id].id == id
  }

  ghost predicate Distinct(order: seq<string>) {
    forall i, j | 0 <= i < j < |order| :: order[i] != order[j]
  }

  ghost predicate Within(order: seq<string>, entries: Entries) {
    forall k | 0 <= k < |order| :: order[k] in entries
  }

  /**
   * `order` lists every key of `entries` exactly once: one iteration order of the
   * dict, which the language leaves unspecified.
   */
  ghost predicate Enumerates(order: seq<string>, entries: Entries) {
    Distinct(order) && Within(order, entries) && forall id | id in entries :: id in order
  }

  /** The entries, in the order `order` visits them, whose tokens match every query prefix. */
  ghost function Matching(entries: Entries, order: seq<string>, query: seq<string>): (s: seq<Entry>)
    requires Within(order, entries)
    ensures |s| <= |order|
    decreases |order|
  {
    if order == [] then []
    else
      var last := entries[order[|order| - 1]];
      Matching(entries, order[..|order| - 1], query) + (if Matches(last.data, query) then [last] else [])
  }

  /** The first `n` elements of `s`: all of them when there are fewer, none when `n <= 0`. */
  function Take<T>(s: seq<T>, n: int): (r: seq<T>)
    ensures |r| == if n <= 0 then 0 else if n < |s| then n else |s|
    ensures r == s[..|r|]
  {
    if n <= 0 then [] else if n < |s| then s[..n] else s
  }

  /** The ranking key of `query`. */
  function Score(e: Entry): real {
    e.score
  }

  /**
   * The factor one boost contributes in `wquery`: a type-name key counts when it is the
   * entry's type, any other key when it is the entry's id.
   */
  function BoostFactor(e: Entry, b: Boost): real {
    if IsTypeName(b.key) then Factor(b, e.kind) else Factor(b, e.id)
  }

  /** The score multiplied, in list order, by the factor of every boost. */
  function Boosted(e: Entry, boosts: seq<Boost>): real
    decreases |boosts|
  {
    if boosts == [] then e.score
    else Times(Boosted(e, boosts[..|boosts| - 1]), BoostFactor(e, boosts[|boosts| - 1]))
  }

  /** The ranking key of `wquery`. */
  function BoostedKey(boosts: seq<Boost>): Entry -> real {
    e => Boosted(e, boosts)
  }

  /** `boosted_score`: the loop over the boosts of `wquery`. */
  method BoostedScore(entry: Entry, boosts: seq<Boost>) returns (score: real)
    ensures score == Boosted(entry, boosts)
  {
    score := entry.score;
    for i := 0 to |boosts|
      invariant score == Boosted(entry, boosts[..i])
    {
      var boost := boosts[i];
      assert boosts[..i + 1][..i] == boosts[..i];
      if IsTypeName(boost.key) {
        if entry.kind == boost.key {
          score := score * boost.multiplier;
        }
      } else if entry.id == boost.key {
        score := score * boost.multiplier;
      }
    }
    assert boosts[..|boosts|] == boosts;
  }

  /** A boost whose key is neither the entry's type nor its id changes nothing. */
  lemma {:induction false} BoostedIgnoresOthers(e: Entry, boosts: seq<Boost>)
    requires forall i | 0 <= i < |boosts| :: boosts[i].key != e.kind && boosts[i].key != e.id
    ensures Boosted(e, boosts) == e.score
    decreases |boosts|
  {
    if boosts != [] {
      BoostedIgnoresOthers(e, boosts[..|boosts| - 1]);
    }
  }

  /** Every element of `Matching` is a stored, matching entry listed in `order`. */
  lemma {:induction false} MatchingSound(entries: Entries, order: seq<string>, query: seq<string>)
    requires KeyedById(entries) && Within(order, entries)
    ensures forall i | 0 <= i < |Matching(entries, order, query)| ::
      var e := Matching(entries, order, query)[i];
      e.id in entries && entries[e.id] == e && Matches(e.data, query) && e.id in order
    decreases |order|
  {
    if order != [] {
      var front := order[..|order| - 1];
      MatchingSound(entries, front, query);
      forall i | 0 <= i < |Matching(entries, front, query)|
        ensures Matching(entries, front, query)[i].id in order
      {
        var k :| 0 <= k < |front| && front[k] == Matching(entries, front, query)[i].id;
        assert order[k] == front[k];
      }
    }
  }

  /** Every stored entry listed in `order` whose tokens match is in `Matching`. */
  lemma {:induction false} MatchingComplete(entries: Entries, order: seq<string>, query: seq<string>)
    requires Within(order, entries)
    ensures forall k | 0 <= k < |order| && Matches(entries[order[k]].data, query) ::
      entries[order[k]] in Matching(entries, order, query)
    decreases |order|
  {
    if order != [] {
      var front := order[..|order| - 1];
      MatchingComplete(entries, front, query);
      forall k | 0 <= k < |front| ensures order[k] == front[k] { }
    }
  }

  /**
   * `Matching` lists its entries in the order `order` visits their ids; with distinct
   * keys, no entry appears twice.
   */
  lemma {:induction false} MatchingInOrder(entries: Entries, order: seq<string>, query: seq<string>)
    requires KeyedById(entries) && Within(order, entries) && Distinct(order)
    ensures forall i, j | 0 <= i < j < |Matching(entries, order, query)| ::
      exists a, b :: 0 <= a < b < |order| && order[a] == Matching(entries, order, query)[i].id
                                          && order[b] == Matching(entries, order, query)[j].id
    ensures forall i, j | 0 <= i < j < |Matching(entries, order, query)| ::
      Matching(entries, order, query)[i].id != Matching(entries, order, query)[j].id
    decreases |order|
  {
    if order != [] {
      var n := |order| - 1;
      var front := order[..n];
      var s, r := Matching(entries, order, query), Matching(entries, front, query);
      MatchingInOrder(entries, front, query);
      MatchingSound(entries, front, query);
      assert s[..|r|] == r;
      forall i, j | 0 <= i < j < |s|
        ensures exists a, b :: 0 <= a < b < |order| && order[a] == s[i].id && order[b] == s[j].id
      {
        assert s[i] == r[i];
        if j < |r| {
          assert s[j] == r[j];
          var a, b :| 0 <= a < b < |front| && front[a] == r[i].id && front[b] == r[j].id;
          assert order[a] == front[a] && order[b] == front[b];
          assert 0 <= a < b < |order| && order[a] == s[i].id && order[b] == s[j].id;
        } else {
          var a :| 0 <= a < |front| && front[a] == r[i].id;
          assert order[a] == front[a] && s[j] == entries[order[n]] && entries[order[n]].id == order[n];
          assert 0 <= a < n < |order| && order[a] == s[i].id && order[n] == s[j].id;
        }
      }
      forall i, j | 0 <= i < j < |s| ensures s[i].id != s[j].id {
        var a, b :| 0 <= a < b < |order| && order[a] == s[i].id && order[b] == s[j].id;
      }
      assert s == Matching(entries, order, query);
    } else {
      assert Matching(entries, order, query) == [];
    }
  }

  /** The linear scan's state: the global dict `entries`. */
  class Index {
    var entries: Entries

    ghost predicate Valid()
      reads this
    {
      KeyedById(entries)
    }

    constructor ()
      ensures Valid() && entries == map[]
    {
      entries := map[];
    }

    /** `add`: stores the record under `id`, replacing an earlier one. */
    method Add(kind: string, id: string, score: real, data: seq<string>)
      requires Valid()
      modifies this
      ensures Valid()
      ensures entries == old(entries)[id := Entry(id, kind, score, data)]
    {
      entries := entries[id := Entry(id, kind, score, data)];
    }

    /** `delete`: removes key `id`; an absent key is the `KeyError` of `del`, changing nothing. */
    method Delete(id: string) returns (r: Outcome<string>)
      requires Valid()
      modifies this
      ensures Valid()
      ensures id in old(entries) ==> r == Pass && entries == old(entries) - {id}
      ensures id !in old(entries) ==> r == Fail(id) && entries == old(entries)
    {
      if id in entries {
        entries := entries - {id};
        r := Pass;
      } else {
        r := Fail(id);
      }
    }

    /**
     * `unsorted_query`: visits the ids in the dict's order `order`, stops once
     * `resultCount` entries matched, and keeps an entry when each query prefix starts
     * one of its tokens.
     */
    method UnsortedQuery(order: seq<string>, resultCount: int, query: seq<string>) returns (matches: seq<Entry>)
      requires Valid() && Enumerates(order, entries)
      ensures matches == Take(Matching(entries, order, query), resultCount)
      ensures resultCount <= 0 ==> matches == []
      ensures |matches| <= resultCount || matches == []
      ensures forall i | 0 <= i < |matches| ::
        matches[i].id in entries && entries[matches[i].id] == matches[i] && Matches(matches[i].data, query)
      ensures forall i, j | 0 <= i < j < |matches| :: matches[i].id != matches[j].id
      ensures |Matching(entries, order, query)| <= resultCount ==>
        forall id | id in entries && Matches(entries[id].data, query) :: entries[id] in matches
    {
      matches := [];
      var k := 0;
      while k < |order|
        invariant 0 <= k <= |order|
        invariant matches == Matching(entries, order[..k], query)
        invariant |matches| <= resultCount || matches == []
      {
        if |matches| >= resultCount {
          break;
        }
        var id := order[k];
        var resultMatch := true;
        var j := 0;
        while j < |query|
          invariant 0 <= j <= |query|
          invariant resultMatch
          invariant forall j' | 0 <= j' < j :: AnyStartsWith(entries[id].data, query[j'])
        {
          var prefix := query[j];
          var found := false;
          var t := 0;
          while t < |entries[id].data|
            invariant 0 <= t <= |entries[id].data|
            invariant forall t' | 0 <= t' < t :: !StartsWith(entries[id].data[t'], prefix)
          {
            if StartsWith(entries[id].data[t], prefix) {
              found := true;
              break;
            }
            t := t + 1;
          }
          if !found {
            resultMatch := false;
            break;
          }
          j := j + 1;
        }
        assert resultMatch <==> Matches(entries[id].data, query);
        assert order[..k + 1][..k] == order[..k];
        if resultMatch {
          matches := matches + [entries[id]];
        }
        k := k + 1;
      }
      ScanResult(entries, order, k, query, resultCount);
    }

    /**
     * `query`: the scan's matches sorted by score, highest first; entries with equal
     * scores stay in the order the scan found them. The source prints their ids.
     */
    method Query(order: seq<string>, resultCount: int, query: seq<string>) returns (ranked: seq<Entry>)
      requires Valid() && Enumerates(order, entries)
      ensures multiset(ranked) == multiset(Take(Matching(entries, order, query), resultCount))
      ensures SortedDesc(ranked, Score)
      ensures forall k :: KeyClass(ranked, Score, k) == KeyClass(Take(Matching(entries, order, query), resultCount), Score, k)
    {
      var matches := UnsortedQuery(order, resultCount, query);
      ranked := SortDesc(matches, Score);
      SortDescSorted(matches, Score);
      forall k ensures KeyClass(ranked, Score, k) == KeyClass(matches, Score, k) {
        SortDescStable(matches, Score, k);
      }
    }

    /**
     * `wquery`: the scan's matches sorted by boosted score, highest first; entries with
     * equal boosted scores stay in the order the scan found them.
     */
    method WQuery(order: seq<string>, resultCount: int, boosts: seq<Boost>, query: seq<string>) returns (ranked: seq<Entry>)
      requires Valid() && Enumerates(order, entries)
      ensures multiset(ranked) == multiset(Take(Matching(entries, order, query), resultCount))
      ensures SortedDesc(ranked, BoostedKey(boosts))
      ensures forall k :: KeyClass(ranked, BoostedKey(boosts), k)
                       == KeyClass(Take(Matching(entries, order, query), resultCount), BoostedKey(boosts), k)
    {
      var matches := UnsortedQuery(order, resultCount, query);
      ranked := SortDesc(matches, BoostedKey(boosts));
      SortDescSorted(matches, BoostedKey(boosts));
      forall k ensures KeyClass(ranked, BoostedKey(boosts), k) == KeyClass(matches, BoostedKey(boosts), k) {
        SortDescStable(matches, BoostedKey(boosts), k);
      }
    }
  }

  /** The prefix `order[..k]` contributes a prefix of `Matching`. */
  lemma {:induction false} MatchingPrefix(entries: Entries, order: seq<string>, k: nat, query: seq<string>)
    requires Within(order, entries) && k <= |order|
    ensures |Matching(entries, order[..k], query)| <= |Matching(entries, order, query)|
    ensures Matching(entries, order[..k], query) == Matching(entries, order, query)[..|Matching(entries, order[..k], query)|]
    decreases |order|
  {
    if k < |order| {
      var n := |order| - 1;
      assert order[..n][..k] == order[..k];
      MatchingPrefix(entries, order[..n], k, query);
      var pre, front, all := Matching(entries, order[..k], query), Matching(entries, order[..n], query), Matching(entries, order, query);
      assert all[..|front|] == front;
      assert all[..|pre|] == front[..|pre|];
    } else {
      assert order[..k] == order;
    }
  }

  /** Where the scan stops, the entries found so far are `Take(Matching(...), resultCount)`. */
  lemma ScanResult(entries: Entries, order: seq<string>, k: nat, query: seq<string>, resultCount: int)
    requires KeyedById(entries) && Enumerates(order, entries) && k <= |order|
    requires |Matching(entries, order[..k], query)| <= resultCount || Matching(entries, order[..k], query) == []
    requires k < |order| ==> |Matching(entries, order[..k], query)| >= resultCount
    ensures var m := Take(Matching(entries, order, query), resultCount);
      m == Matching(entries, order[..k], query)
      && (resultCount <= 0 ==> m == [])
      && (|m| <= resultCount || m == [])
      && (forall i | 0 <= i < |m| :: m[i].id in entries && entries[m[i].id] == m[i] && Matches(m[i].data, query))
      && (forall i, j | 0 <= i < j < |m| :: m[i].id != m[j].id)
      && (|Matching(entries, order, query)| <= resultCount ==>
            forall id | id in entries && Matches(entries[id].data, query) :: entries[id] in m)
  {
    var all := Matching(entries, order, query);
    MatchingPrefix(entries, order, k, query);
    MatchingSound(entries, order, query);
    MatchingInOrder(entries, order, query);
    MatchingComplete(entries, order, query);
    var m := Take(all, resultCount);
    if k == |order| {
      assert order[..k] == order;
    }
    forall i | 0 <= i < |m| ensures m[i] == all[i] { }
    if |all| <= resultCount {
      forall id | id in entries && Matches(entries[id].data, query) ensures entries[id] in m {
        var a :| 0 <= a < |order| && order[a] == id;
      }
    }
  }
}
