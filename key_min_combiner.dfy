/** The min-by-key combiner of the max-flow examples. */
module KeyMinCombiner {
  /** `combine(val, other)`: `other` replaces `val` only when its key is strictly smaller. */
  function Combine<V>(val: (int, V), other: (int, V)): (r: (int, V))
    ensures r == val || r == other
    ensures r.0 <= val.0 && r.0 <= other.0
    ensures r == other <== other.0 < val.0
    ensures r == val <== val.0 <= other.0
  {
    if other.0 < val.0 then other else val
  }

  /** Combining the messages pushed to one key, in push order, into the first one. */
  function Fold<V>(acc: (int, V), rest: seq<(int, V)>): (int, V)
    decreases |rest|
  {
    if rest == [] then acc else Fold(Combine(acc, rest[0]), rest[1..])
  }

  function Combined<V>(msgs: seq<(int, V)>): (int, V)
    requires msgs != []
  {
    Fold(msgs[0], msgs[1..])
  }

  /** Folding the combiner picks the leftmost message whose key is minimal. */
  lemma {:induction false} FoldLeftmostMin<V>(acc: (int, V), rest: seq<(int, V)>)
    ensures var r := Fold(acc, rest);
      && (r == acc || exists k :: 0 <= k < |rest| && r == rest[k])
      && r.0 <= acc.0 && (forall k :: 0 <= k < |rest| ==> r.0 <= rest[k].0)
      && (r != acc ==> r.0 < acc.0 && exists k :: 0 <= k < |rest| && r == rest[k] && forall j :: 0 <= j < k ==> rest[j].0 > r.0)
    decreases |rest|
  {
    if rest != [] {
      var c := Combine(acc, rest[0]);
      FoldLeftmostMin(c, rest[1..]);
      var r := Fold(acc, rest);
      assert r == Fold(c, rest[1..]);
      if r != c {
        var k :| 0 <= k < |rest[1..]| && r == rest[1..][k] && forall j :: 0 <= j < k ==> rest[1..][j].0 > r.0;
        assert r == rest[k + 1];
        forall j | 0 <= j < k + 1 ensures rest[j].0 > r.0 {
          if j > 0 { assert rest[j] == rest[1..][j - 1]; }
        }
      } else if r != acc {
        assert r == rest[0];
      }
      forall k | 0 <= k < |rest| ensures r.0 <= rest[k].0 {
        if k > 0 { assert rest[k] == rest[1..][k - 1]; }
      }
    }
  }

  /** The combined message of a non-empty inbox is the leftmost one with the minimal key. */
  lemma CombinedIsLeftmostMin<V>(msgs: seq<(int, V)>)
    requires msgs != []
    ensures exists k :: (
      && 0 <= k < |msgs| && Combined(msgs) == msgs[k]
      && (forall j :: 0 <= j < |msgs| ==> msgs[k].0 <= msgs[j].0)
      && (forall j :: 0 <= j < k ==> msgs[j].0 > msgs[k].0))
  {
    var r := Combined(msgs);
    FoldLeftmostMin(msgs[0], msgs[1..]);
    if r == msgs[0] {
      forall j | 0 <= j < |msgs| ensures msgs[0].0 <= msgs[j].0 {
        if j > 0 { assert msgs[j] == msgs[1..][j - 1]; }
      }
      assert Combined(msgs) == msgs[0];
    } else {
      var k :| 0 <= k < |msgs[1..]| && r == msgs[1..][k] && forall j :: 0 <= j < k ==> msgs[1..][j].0 > r.0;
      assert r == msgs[k + 1];
      forall j | 0 <= j < k + 1 ensures msgs[j].0 > r.0 {
        if j > 0 { assert msgs[j] == msgs[1..][j - 1]; }
      }
      forall j | 0 <= j < |msgs| ensures r.0 <= msgs[j].0 {
        if j > 0 { assert msgs[j] == msgs[1..][j - 1]; }
      }
    }
  }

  /** The combined message is one of the messages pushed. */
  lemma CombinedIn<V>(msgs: seq<(int, V)>)
    requires msgs != []
    ensures Combined(msgs) in msgs
  {
    CombinedIsLeftmostMin(msgs);
  }
}
