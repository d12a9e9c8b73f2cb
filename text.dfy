/** String prefixes, as both engines use them. Strings are sequences of characters. */
module Text {

  /** Python's `token.startswith(prefix)`. */
  predicate StartsWith(token: string, prefix: string) {
    |prefix| <= |token| && token[..|prefix|] == prefix
  }

  /** Some token of `tokens` starts with `prefix`. */
  predicate AnyStartsWith(tokens: seq<string>, prefix: string) {
    exists i :: 0 <= i < |tokens| && StartsWith(tokens[i], prefix)
  }

  /** Every query prefix is the prefix of some token: the linear scan's match rule. */
  predicate Matches(tokens: seq<string>, query: seq<string>) {
    forall j :: 0 <= j < |query| ==> AnyStartsWith(tokens, query[j])
  }

  /** Every prefix of every token of `tokens`. */
  ghost function TokenPrefixes(tokens: seq<string>): set<string> {
    set i, k | 0 <= i < |tokens| && 0 <= k <= |tokens[i]| :: tokens[i][..k]
  }

  /** A prefix set is exactly the strings some token starts with. */
  lemma TokenPrefixesIff(tokens: seq<string>, p: string)
    ensures p in TokenPrefixes(tokens) <==> AnyStartsWith(tokens, p)
  {
    if AnyStartsWith(tokens, p) {
      var i :| 0 <= i < |tokens| && StartsWith(tokens[i], p);
      assert tokens[i][..|p|] == p;
    }
  }
}
