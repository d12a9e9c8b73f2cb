/**
 * The trie engine's items (typeahead.py, class `Item`): a search result with a type,
 * an id, a raw score, its tokens, and the creation order stamped on it from a
 * counter shared by every item.
 */
module TypeaheadItem {
  import opened Boosts

  datatype Item = Item(creationOrderId: nat, kind: string, id: string, rawScore: real, tokens: seq<string>)
  {
    /**
     * The boosted score as the source computes it: while only type names have been
     * seen, a boost applies when its key is this item's kind (the source's `type`); from the first key that
     * is not a type name on, every boost (type names included) applies only when its
     * key is this item's id.
     */
    function BoostedScore(boosts: seq<Boost>): real {
      var j := FirstNonType(boosts);
      Scale(Scale(rawScore, boosts[..j], kind), boosts[j..], id)
    }

    /** The score after the first `i` boosts have been applied, one boost at a time. */
    ghost function ScoreAfter(boosts: seq<Boost>, i: nat): real
      requires i <= |boosts|
    {
      if i == 0 then rawScore
      else Times(ScoreAfter(boosts, i - 1), Factor(boosts[i - 1], if i - 1 < FirstNonType(boosts) then kind else id))
    }

    /** `score_with_boosts`: the loop with its `type_boosts_allowed` flag. */
    method ScoreWithBoosts(boosts: seq<Boost>) returns (score: real)
      ensures score == BoostedScore(boosts)
    {
      ghost var j := FirstNonType(boosts);
      score := rawScore;
      var typeBoostsAllowed := true;
      for i := 0 to |boosts|
        invariant typeBoostsAllowed <==> i <= j
        invariant score == ScoreAfter(boosts, i)
      {
        var boost := boosts[i];
        if IsTypeName(boost.key) && typeBoostsAllowed {
          if kind == boost.key {
            score := score * boost.multiplier;
          }
        } else {
          if typeBoostsAllowed { typeBoostsAllowed := false; }
          if id == boost.key {
            score := score * boost.multiplier;
          }
        }
      }
      ScoreAfterAll(boosts);
    }

    lemma {:induction false} ScoreAfterTypePhase(boosts: seq<Boost>, i: nat)
      requires i <= FirstNonType(boosts)
      ensures ScoreAfter(boosts, i) == Scale(rawScore, boosts[..i], kind)
    {
      if i > 0 {
        ScoreAfterTypePhase(boosts, i - 1);
        assert boosts[..i][..i - 1] == boosts[..i - 1];
      }
    }

    lemma {:induction false} ScoreAfterIdPhase(boosts: seq<Boost>, i: nat)
      requires FirstNonType(boosts) <= i <= |boosts|
      ensures ScoreAfter(boosts, i)
           == Scale(Scale(rawScore, boosts[..FirstNonType(boosts)], kind), boosts[FirstNonType(boosts)..i], id)
    {
      var j := FirstNonType(boosts);
      if i == j {
        ScoreAfterTypePhase(boosts, i);
        assert boosts[j..i] == [];
      } else {
        ScoreAfterIdPhase(boosts, i - 1);
        ScaleSnoc(Scale(rawScore, boosts[..j], kind), boosts, j, i - 1, id);
      }
    }

    /** After every boost, the loop's score is the boosted score. */
    lemma ScoreAfterAll(boosts: seq<Boost>)
      ensures ScoreAfter(boosts, |boosts|) == BoostedScore(boosts)
    {
      ScoreAfterIdPhase(boosts, |boosts|);
      assert boosts[FirstNonType(boosts)..|boosts|] == boosts[FirstNonType(boosts)..];
    }
  }

  /** The class attribute `Item.items_created`, and item creation through it. */
  class ItemCounter {
    var itemsCreated: nat

    constructor ()
      ensures itemsCreated == 0
    {
      itemsCreated := 0;
    }

    /** `Item(type, id, raw_score, tokens)`: stamps the prior counter value, then counts. */
    method NewItem(kind: string, id: string, rawScore: real, tokens: seq<string>) returns (item: Item)
      modifies this
      ensures item == Item(old(itemsCreated), kind, id, rawScore, tokens)
      ensures itemsCreated == old(itemsCreated) + 1
    {
      item := Item(itemsCreated, kind, id, rawScore, tokens);
      itemsCreated := itemsCreated + 1;
    }
  }
}
