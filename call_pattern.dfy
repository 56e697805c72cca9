/**
 * The call pattern `/(\w+)\(/` that src/core/transformer/MacroViewTransformer.ts applies to
 * the text of an expression statement: the first match (the one starting leftmost) gives
 * the callee name as its capture group.
 */
module CallPattern {
  import opened Wrappers

  /** `\w` of a regular expression without the `u` flag: ASCII letters, digits, `_`. */
  predicate WordChar(c: char)
  {
    'A' <= c <= 'Z' || 'a' <= c <= 'z' || '0' <= c <= '9' || c == '_'
  }

  /**
   * The pattern matches from `i` with its group `e[i..j]`: one or more word characters
   * followed by `(`. This is the reference the search below is held to.
   */
  predicate PatternAt(e: string, i: int, j: int)
  {
    0 <= i < j < |e| && e[j] == '(' && forall k :: i <= k < j ==> WordChar(e[k])
  }

  /** A `(` right after a word character: where some match of the pattern ends. */
  predicate CallParen(e: string, p: int)
  {
    0 < p < |e| && e[p] == '(' && WordChar(e[p - 1])
  }

  /** The first call parenthesis at or after `from`. */
  function FirstCallParen(e: string, from: nat): (r: Option<nat>)
    decreases |e| - from
    ensures r.Some? ==> from <= r.value && CallParen(e, r.value)
                        && forall q :: from <= q < r.value ==> !CallParen(e, q)
    ensures r.None? ==> forall q :: from <= q < |e| ==> !CallParen(e, q)
  {
    if from >= |e| then None
    else if CallParen(e, from) then Some(from)
    else FirstCallParen(e, from + 1)
  }

  /** Where the run of word characters that ends just before `p` begins. */
  function RunStart(e: string, p: nat): (i: nat)
    requires p <= |e|
    ensures i <= p && forall k :: i <= k < p ==> WordChar(e[k])
    ensures i == 0 || !WordChar(e[i - 1])
  {
    if p == 0 || !WordChar(e[p - 1]) then p else RunStart(e, p - 1)
  }

  /** The capture group of the first match, when the expression has one. */
  function Callee(e: string): (r: Option<string>)
    ensures r.Some? ==> r.value != [] && forall k :: 0 <= k < |r.value| ==> WordChar(r.value[k])
  {
    match FirstCallParen(e, 0)
    case None => None
    case Some(p) => Some(e[RunStart(e, p)..p])
  }

  /** A run of word characters from `i` reaches back at least to `i`. */
  lemma {:induction false} RunStartReaches(e: string, i: nat, p: nat)
    requires i <= p <= |e| && forall k :: i <= k < p ==> WordChar(e[k])
    ensures RunStart(e, p) <= i
  {
    if p > i {
      RunStartReaches(e, i, p - 1);
    }
  }

  /** The expression yields no callee exactly when the pattern matches nowhere. */
  lemma CalleeNone(e: string)
    ensures Callee(e).None? <==> forall i, j :: !PatternAt(e, i, j)
  {
    match FirstCallParen(e, 0)
    case None =>
      forall i, j | PatternAt(e, i, j)
        ensures false
      {
        assert CallParen(e, j);
      }
    case Some(p) =>
      assert PatternAt(e, RunStart(e, p), p);
  }

  /**
   * When `i` is the leftmost position a match starts from, the callee is that match's
   * group `e[i..j]`: the regular expression's first match is the one this search finds.
   */
  lemma CalleeFound(e: string, i: int, j: int)
    requires PatternAt(e, i, j)
    requires forall i', j' :: 0 <= i' < i ==> !PatternAt(e, i', j')
    ensures Callee(e) == Some(e[i..j])
  {
    assert CallParen(e, j);
    var p := FirstCallParen(e, 0).value;
    var s := RunStart(e, p);
    assert PatternAt(e, s, p);
    assert i <= s;
    assert !WordChar(e[p]);
    assert p == j;
    RunStartReaches(e, i, j);
  }
}
