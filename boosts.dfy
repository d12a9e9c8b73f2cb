/**
 * Boost rules: a key (a type name or an item id) and a multiplier. Parsing
 * `key:multiplier` and the float conversion belong to the command loop; here a boost
 * arrives as a pair and multipliers are reals.
 */
module Boosts {

  datatype Boost = Boost(key: string, multiplier: real)

  /** The keys that both engines treat as type names. */
  predicate IsTypeName(key: string) {
    key == "user" || key == "topic" || key == "question" || key == "board"
  }

  /** The multiplier of `b` if its key is `key`, otherwise 1. */
  function Factor(b: Boost, key: string): real {
    if b.key == key then b.multiplier else 1.0
  }

  /** Multiplication of scores, kept as a named operation. */
  function Times(x: real, y: real): real {
    x * y
  }

  /** `x` multiplied, in list order, by the multiplier of every boost whose key is `key`. */
  function Scale(x: real, boosts: seq<Boost>, key: string): real
    decreases |boosts|
  {
    if boosts == [] then x
    else Times(Scale(x, boosts[..|boosts| - 1], key), Factor(boosts[|boosts| - 1], key))
  }

  /** Scaling by `a + c` is scaling by `a`, then by `c`. */
  lemma {:induction false} ScaleAppend(x: real, a: seq<Boost>, c: seq<Boost>, key: string)
    ensures Scale(x, a + c, key) == Scale(Scale(x, a, key), c, key)
    decreases |c|
  {
    if c == [] {
      assert a + c == a;
    } else {
      var ac := a + c;
      assert ac[..|ac| - 1] == a + c[..|c| - 1];
      assert ac[|ac| - 1] == c[|c| - 1];
      ScaleAppend(x, a, c[..|c| - 1], key);
    }
  }

  /** Boosts for other keys leave the value unchanged. */
  lemma {:induction false} ScaleAbsent(x: real, boosts: seq<Boost>, key: string)
    requires forall i | 0 <= i < |boosts| :: boosts[i].key != key
    ensures Scale(x, boosts, key) == x
    decreases |boosts|
  {
    if boosts != [] {
      ScaleAbsent(x, boosts[..|boosts| - 1], key);
    }
  }

  /** One more boost on the right multiplies in its own factor. */
  lemma ScaleSnoc(x: real, boosts: seq<Boost>, i: nat, j: nat, key: string)
    requires i <= j < |boosts|
    ensures Scale(x, boosts[i..j + 1], key) == Times(Scale(x, boosts[i..j], key), Factor(boosts[j], key))
  {
    assert boosts[i..j + 1][..j - i] == boosts[i..j];
  }

  /**
   * The index of the first boost whose key is not a type name, or the number of
   * boosts when every key is one.
   */
  function FirstNonType(boosts: seq<Boost>): (j: nat)
    ensures j <= |boosts|
    ensures forall k | 0 <= k < j :: IsTypeName(boosts[k].key)
    ensures j < |boosts| ==> !IsTypeName(boosts[j].key)
  {
    if boosts == [] || !IsTypeName(boosts[0].key) then 0
    else 1 + FirstNonType(boosts[1..])
  }
}
