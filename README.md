# Typeahead: two prefix-search engines, modelled in Dafny

The repository answers a stream of `ADD`, `DEL`, `QUERY` and `WQUERY` commands over
search items (users, topics, questions, boards). Each item has a type, an id, a score
and lower-cased tokens. A query is a list of prefixes. An item matches when every query
prefix starts one of its tokens. Matches are ranked by score, which a `WQUERY` can
multiply by per-type or per-id boosts.

There are two engines:

- `typeahead.py` keeps a character trie. Every node holds, keyed by id, each item that has
  a token reaching that node. Items carry a creation stamp from a class-wide counter.
  A query intersects the item dicts at the nodes of its prefixes. It then ranks the result
  with two stable sorts, so that boosted score decides first and recency breaks ties.
- `old_typeahead.py` keeps a dict of entries. It scans the dict linearly and stops after
  `result_count` matches. The scan's result is sorted stably by (boosted) score.

The model follows the source's own form:

- The trie is a graph of heap `Node` objects. Each has a `children` map and an `items` map,
  both updated in place.
- A `Trie` object holds the root. It also holds the ghost map from path to node and the
  ghost footprint `Repr`.
- Every trie method is proved against `Trie.Contents()`, the abstract map from path to
  items. The change it makes is stated through one value-level function, `Along(c, P, e)`.
  This function creates any missing node on the paths `P` and applies the edit `e` (touch,
  put an item, drop an id) at each of them.
- The properties the source promises are proved as lemmas about the value functions built
  on `Along`: `Candidates`, `Added` and `Deleted`.
- The linear scan is a class holding the `entries` map. Its nested loops are proved
  against the function `Matching`.

Modules, one file each:

- `Wrappers`: `Option` and `Outcome`.
- `Text`: `startswith`, the match rule, and prefix sets.
- `Boosts`: boost rules and type names.
- `Sorting`: Python's stable `sorted(..., reverse=True)`.
- `TypeaheadItem`: `Item`, the creation counter and `score_with_boosts`.
- `TypeaheadTrie`: `Node` and the trie's abstract state.
- `Typeahead`: the module-level functions of `typeahead.py`.
- `OldTypeahead`: `old_typeahead.py`.
- `Agreement`: how the two engines relate.

Two behaviours of the code shape the model:

- Boost rules. `typeahead.py` applies type boosts only until the first boost whose key is
  not a type name, and from there on compares every key with the item's id.
  `old_typeahead.py` applies every matching boost. `Agreement.BoostsAgree` proves the two
  rules agree when no type name follows the first non-type key. `Agreement.BoostsDiffer`
  shows one case where they differ.
- Re-adding an id. `typeahead.py`'s `add` never removes an earlier item with the same id,
  and `Typeahead.StaleAfterReAdd` shows the stale entries this leaves.

## Model

| member | source | states |
|---|---|---|
| TypeaheadItem.ItemCounter.NewItem | typeahead.py:5-9 | the new item's creation stamp is the counter's value before the call, and the counter grows by exactly one |
| TypeaheadItem.Item.ScoreWithBoosts | typeahead.py:16-30 | the loop with its `type_boosts_allowed` flag computes `BoostedScore`: the raw score times the boosts keyed by the item's type up to the first non-type key, then times every later boost whose key is the item's id |
| TypeaheadItem.Item.ScoreAfterAll | typeahead.py:20-30 | the loop's score after every boost equals the two-phase closed form `BoostedScore` |
| TypeaheadItem.Item.ScoreAfterTypePhase | typeahead.py:22-25 | while only type names have been seen, the score is the raw score scaled by the boosts whose key is the item's type |
| TypeaheadItem.Item.ScoreAfterIdPhase | typeahead.py:26-29 | from the first non-type key on, each further boost applies only when its key is the item's id, type names included |
| Boosts.FirstNonType | typeahead.py:23-27 | the index where `type_boosts_allowed` is switched off: every earlier key is a type name, and the key at that index, if there is one, is not |
| Boosts.ScaleAppend | typeahead.py:22-29 | applying boosts `a + c` is applying `a` and then `c` |
| Boosts.ScaleAbsent | typeahead.py:24-29 | boosts for keys other than the compared one leave the score unchanged |
| TypeaheadTrie.Trie.constructor | typeahead.py:78 | the fresh trie is a valid trie with only the root, which holds no items |
| TypeaheadTrie.Node.AddChild | typeahead.py:47-48 | a child is created only for a key that is absent; it is a fresh empty node, recorded at the extended path, and no other node's items change |
| TypeaheadTrie.Node.NextChildAlongPath | typeahead.py:42-49 | the result is the child keyed by `path[0]`; when that key was absent, exactly one fresh empty node is added, and otherwise the trie's shape is unchanged; no items change |
| TypeaheadTrie.Node.ChildAtPath | typeahead.py:51-58 | the result is the node at `at + path`, so an empty path gives the node itself; the nodes on the way are created when missing, and no items change |
| TypeaheadTrie.Node.Descend | typeahead.py:55-57 | one pass of `child_at_path`'s loop moves from the node at `at + path[..k]` to the node one character further, creating it when missing and changing no items |
| TypeaheadTrie.Node.StoreItem | typeahead.py:71 | this node's items map `item.id` to `item`; nothing else changes |
| TypeaheadTrie.Node.DiscardItem | typeahead.py:75 | this node's items lose `id`, and an absent id changes nothing |
| TypeaheadTrie.Node.AddItemAlongPath | typeahead.py:70-72 | the item is put at this node and at every node on the walk along `path` |
| TypeaheadTrie.Node.DeleteItemAlongPath | typeahead.py:74-76 | the id is dropped at this node and at every node on the walk along `path`, creating missing nodes |
| TypeaheadTrie.Node.AddItem | typeahead.py:60-63 | the item is put at the node of every prefix of every one of its tokens, and nowhere else |
| TypeaheadTrie.Node.DeleteItem | typeahead.py:65-68 | the id is dropped at the node of every prefix of every one of the item's tokens, and nowhere else |
| TypeaheadTrie.KeyedContents | typeahead.py:71 | a valid trie stores every item under its own id |
| TypeaheadTrie.AlongTwice | typeahead.py:62-63 | repeating an edit over two path sets is the edit over their union; the loops over tokens compose |
| TypeaheadTrie.PathsRoot | typeahead.py:60-63 | the nodes the token loop visits from the root are exactly the prefixes of the tokens |
| Typeahead.CandidatesIff | typeahead.py:80-86 | an id is a candidate iff every token's node holds it, and its item is the one at `tokens[0]`'s node |
| Typeahead.ItemsAt | typeahead.py:82-84 | the items returned are those at the token's node before the call, and the walk only creates missing nodes |
| Typeahead.NarrowBy | typeahead.py:83-85 | one loop pass narrows the candidates by the items at the next token's node and extends the walked paths by that token's prefixes |
| Typeahead.UnsortedQuery | typeahead.py:80-86 | without tokens the query fails (`tokens[0]`) and the trie is unchanged; otherwise it returns `Candidates` of the trie before the call; in both cases the items at every node are as before |
| Typeahead.TouchKeepsItems | typeahead.py:80-86 | creating nodes on the walk changes the items at no path |
| Typeahead.TouchKeepsCandidates | typeahead.py:80-86 | the nodes a query creates change no later query's candidates |
| Typeahead.Add | typeahead.py:88-90 | the item is stamped with the prior counter value, the counter grows by one, and the trie's contents become `Added` |
| Typeahead.AddedStores | typeahead.py:60-72 | after adding, every prefix of every token holds the item; no other id's entries change; paths no token reaches are unchanged |
| Typeahead.EmptyTokensNotStored | typeahead.py:60-72 | an item without tokens is stored nowhere, not even at the root |
| Typeahead.Delete | typeahead.py:92-94 | the trie's contents become `Deleted`: unchanged when the root does not hold `id`, otherwise the id is dropped along the tokens of the item the root holds |
| Typeahead.DroppedAlong | typeahead.py:65-76 | after the drop, the id is absent at every prefix of every token, and no other id's entries change |
| Typeahead.DropAbsentIsTouch | typeahead.py:75 | dropping an id absent on every path is only node creation |
| Typeahead.ReflectsInitial | typeahead.py:78 | the empty trie reflects no live items |
| Typeahead.ReflectsRoot | typeahead.py:94 | in a reflecting trie, the root holds exactly the live ids with at least one token |
| Typeahead.ReflectsAdd | typeahead.py:88-90 | adding an item whose id the root does not hold keeps the trie an exact prefix index of the live items |
| Typeahead.ReflectsDelete | typeahead.py:92-94 | deleting any id keeps the trie an exact prefix index of the live items minus that id |
| Typeahead.ReflectsTouch | typeahead.py:80-86 | a query's node creation keeps the trie an exact prefix index |
| Typeahead.CandidatesMatch | typeahead.py:80-86 | on a trie that reflects the live items, an id is a candidate iff it is live and every query prefix starts one of its tokens, the linear scan's rule |
| Typeahead.StaleAfterReAdd | typeahead.py:88-94 | adding id `u1` with token `ab` and again with token `c` leaves `u1`'s first item at node `a`. The trie then no longer reflects the live item. A delete of `u1` leaves that stale entry while clearing the root |
| Typeahead.StampsAdd | typeahead.py:88-90 | adding an item stamped with the counter keeps every stored stamp below the incremented counter and keeps stamps unique |
| Typeahead.StampsDelete | typeahead.py:92-94 | deleting keeps the stamp bound and uniqueness |
| Typeahead.StampsTouch | typeahead.py:80-86 | query walks keep the stamp bound and uniqueness |
| Typeahead.CandidatesStampsDistinct | typeahead.py:80-86 | with unique stamps, no two candidates of a query share a creation stamp |
| Typeahead.Slice | typeahead.py:102 | Python's `matches[0:result_count]`: the first `n` elements, all but the last `-n` for negative `n`, and never more than there are |
| Typeahead.RankedOrder | typeahead.py:100-101 | the two sorts permute the matches and order them by boosted score descending, ties by creation stamp descending |
| Typeahead.Values | typeahead.py:86 | `items.values()` in some order: every candidate exactly once, and nothing else |
| Typeahead.RankedLists | typeahead.py:86-101 | ranking a listing of the candidates lists each candidate exactly once, in ranking order |
| Typeahead.SliceTop | typeahead.py:101-102 | no candidate cut off by the slice ranks above a kept one |
| Typeahead.SliceAnswers | typeahead.py:100-102 | the ids of the sliced ranking are an answer: the slice's length, distinct candidates, ordered, none ranked below one left out |
| Typeahead.Rank | typeahead.py:99-102 | listing, sorting twice and slicing the candidates give an answer for them |
| Typeahead.SortedQueryWithBoosts | typeahead.py:96-102 | without tokens it fails like `unsorted_query`; otherwise the ids returned are an answer for the query's candidates; the items at every node are unchanged |
| Typeahead.AnswerAtLeast | typeahead.py:100-102 | two answers that agree before a position rank their items at that position alike in both directions |
| Typeahead.AnswersAgree | typeahead.py:100-102 | two answers for candidates with distinct stamps agree on every prefix |
| Typeahead.AnswersDetermined | typeahead.py:86-102 | when stamps are distinct, the answer is unique, so the order of `items.values()` cannot change the ids returned |
| Sorting.InsertDesc | typeahead.py:100-101 | one insertion step of the sort keeps the elements, one more of `x` |
| Sorting.SortDesc | typeahead.py:100-101 | `sorted(..., reverse=True)` keeps the elements and the length |
| Sorting.SortDescSorted | old_typeahead.py:38-56 | the sort's output is in descending key order |
| Sorting.SortDescLex | typeahead.py:100-101 | sorting by a major key input already in descending minor-key order gives major-then-minor descending order |
| Sorting.SortDescStable | old_typeahead.py:38-56 | elements with the same key keep their input order |
| Text.TokenPrefixesIff | typeahead.py:35 | the prefix set of a token list is exactly the strings some token starts with |
| OldTypeahead.Index.constructor | old_typeahead.py:62 | the scan starts from an empty dict |
| OldTypeahead.Index.Add | old_typeahead.py:6-12 | `entries[id]` becomes the record {id, type, score, data}, replacing any earlier one; other keys are unchanged |
| OldTypeahead.Index.Delete | old_typeahead.py:14-15 | exactly key `id` is removed; an absent key is the `KeyError` of `del`, reported as `Fail(id)`, with the dict unchanged |
| OldTypeahead.Index.UnsortedQuery | old_typeahead.py:17-36 | the scan returns the first `result_count` matches in the dict's order: each a stored, matching entry, each once, none when `result_count <= 0`, all of them when fewer match |
| OldTypeahead.MatchingSound | old_typeahead.py:24-33 | every entry the scan keeps is stored, matches every query prefix, and is listed in the dict's order |
| OldTypeahead.MatchingComplete | old_typeahead.py:24-33 | every listed entry that matches is kept |
| OldTypeahead.MatchingInOrder | old_typeahead.py:21-33 | the kept entries come in the dict's order, each id once |
| OldTypeahead.MatchingPrefix | old_typeahead.py:21-22 | stopping the scan early yields a prefix of the full scan's matches |
| OldTypeahead.ScanResult | old_typeahead.py:21-35 | where the scan stops, its matches are the first `result_count` of the full scan's, with all its guarantees |
| OldTypeahead.Take | old_typeahead.py:22 | the first `n` elements: none for `n <= 0`, all when fewer |
| OldTypeahead.BoostedScore | old_typeahead.py:46-54 | the loop multiplies the score, in list order, by each boost whose key is a type name equal to the entry's type or a non-type key equal to its id |
| OldTypeahead.BoostedIgnoresOthers | old_typeahead.py:48-53 | boosts keyed by neither the entry's type nor its id leave the score unchanged |
| OldTypeahead.Index.Query | old_typeahead.py:38-40 | the scan's matches, permuted into descending score order, equal scores in scan order |
| OldTypeahead.Index.WQuery | old_typeahead.py:43-56 | the scan's matches, permuted into descending boosted-score order, equal scores in scan order |
| Agreement.AddAgrees | old_typeahead.py:6-12 | the scan's `add` of an item's arguments and the trie engine's `add` of that item, to a trie whose root does not hold the id, keep the trie reflecting and the dict mirroring the same live items, with the item put in |
| Agreement.DeleteAgrees | old_typeahead.py:14-15 | the trie engine's `delete` and the scan's `delete` (or its `KeyError`, dict unchanged, when the key is absent) keep the trie reflecting and the dict mirroring the live items without the id |
| Agreement.MatchesAgree | old_typeahead.py:24-33 | on a trie that reflects the live items and a dict that mirrors them, the trie's candidates are exactly the entries the full scan keeps |
| Agreement.BoostedPrefix | old_typeahead.py:46-54 | when no type name follows a non-type key, the scan's score after each boost equals the trie loop's score |
| Agreement.BoostsAgree | old_typeahead.py:46-54 | under that condition, the two engines' boosted scores are equal |
| Agreement.BoostsDiffer | typeahead.py:23-29 | with `x:3` before `user:2`, a user's score is 1.0 in the trie engine and 2.0 in the scan |

## Left out

- The command loops on standard input and their tokenising (typeahead.py:105-131,
  old_typeahead.py:64-79) are I/O glue. This includes lower-casing the tokens and splitting boosts at
  `:`. Operations take tokens as strings and boosts as `(key, multiplier)` pairs.
- Output with `print` and `' '.join` is not modelled. Queries return the id sequence (or the
  ranked entries, for the scan) instead.
- `debug` (old_typeahead.py:59-60) only prints.
- `float(...)` and `int(...)` parsing is left out. Scores and multipliers are `real`, so IEEE
  rounding of the score products is not modelled.
- Dict iteration order is unspecified in Python 2. For the scan it is a parameter `order`
  listing every key once. For `items.values()` it is an arbitrary choice (`Typeahead.Values`).
  `Typeahead.AnswersDetermined` shows the trie engine's answer does not depend on it when
  stamps are distinct.
- The dead counter `i` and its "reverse order" comment (old_typeahead.py:19-20, 34) have no
  effect on results.
- Exceptions are modelled as results rather than raised. `unsorted_query` and
  `sorted_query_with_boosts` with no tokens fail on `tokens[0]` with `IndexError`; this is
  `None`. The scan's `delete` of an absent id raises `KeyError`; this is `Fail(id)`.
- Typeahead.ItemsAt, Typeahead.UnsortedQuery, Typeahead.SortedQueryWithBoosts: these state
  that the nodes a walk creates are fresh and empty and that no item changes. They do not
  promise that the node objects of an earlier result are left untouched. The model only
  ever reads items through `Contents()`.
- Typeahead.Add: the counter lives in its own `ItemCounter` object. The model does not tie
  the counter to the trie. That every stored stamp is below the counter is the separate
  invariant `StampedBelow`, preserved by `StampsAdd`, `StampsDelete` and `StampsTouch`.
- Typeahead.CandidatesMatch and Agreement.MatchesAgree need the trie to reflect the live
  items exactly. `ReflectsAdd` keeps that only when the root does not hold the id.
  `StaleAfterReAdd` shows why.
