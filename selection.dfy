/**
 * Python's `min(items, key=f)`: the item with the least key, the first one on a tie
 * (used by find_best_match and by the fuzzy path of get_yield_strength_from_scraper).
 */
module Selection {

  /** `k` is the position of the first least element of `keys`. */
  ghost predicate IsFirstMin(keys: seq<nat>, k: int)
  {
    0 <= k < |keys|
    && (forall j :: 0 <= j < |keys| ==> keys[k] <= keys[j])
    && (forall j :: 0 <= j < k ==> keys[k] < keys[j])
  }

  /** The position of the first least key, scanning from the left as `min` does. */
  function FirstMin(keys: seq<nat>): (k: nat)
    requires |keys| > 0
    ensures IsFirstMin(keys, k)
  {
    if |keys| == 1 then 0
    else
      var r := FirstMin(keys[1..]) + 1;
      if keys[0] <= keys[r] then 0 else r
  }

  /** At most one position is the first least one. */
  lemma FirstMinUnique(keys: seq<nat>, k1: int, k2: int)
    requires IsFirstMin(keys, k1) && IsFirstMin(keys, k2)
    ensures k1 == k2
  {
    var least1, least2 := keys[k1], keys[k2];
    assert least1 <= least2 && least2 <= least1;
  }

  /** A position no later than the first least one, holding the same key, is that position. */
  lemma FirstMinEarliest(keys: seq<nat>, m: int, i: int)
    requires IsFirstMin(keys, m) && 0 <= i <= m && keys[i] == keys[m]
    ensures i == m
  {
    var least, other := keys[m], keys[i];
    assert least <= other;
  }
}
