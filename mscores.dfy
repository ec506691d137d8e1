/**
 * The `mScores` table of `getMScores` (utils.py): for each trajectory length,
 * the best score found and the path that first reached it.
 */
module MScores {
  import opened Tokens
  import opened DLS

  datatype MEntry = MEntry(score: int, path: seq<Object>)

  type MTable = map<int, MEntry>

  /** The update for one popped node: insert a new length, replace only on a strictly greater score. */
  function Record(t: MTable, n: DLSNode): MTable
  {
    var len := n.TrajLen();
    if len !in t || n.score > t[len].score then t[len := MEntry(n.score, n.Path())] else t
  }

  /** The table after the nodes of `explored` were popped, in that order. */
  function TableOf(explored: seq<DLSNode>): MTable
  {
    if explored == [] then map[]
    else Record(TableOf(explored[..|explored| - 1]), explored[|explored| - 1])
  }

  /** The lengths in the table are exactly the trajectory lengths of the explored nodes. */
  lemma {:induction false} TableKeys(explored: seq<DLSNode>)
    ensures forall len :: len in TableOf(explored) <==> exists i :: 0 <= i < |explored| && explored[i].TrajLen() == len
  {
    if explored != [] {
      var pre := explored[..|explored| - 1];
      TableKeys(pre);
      forall len | len in TableOf(explored) ensures exists i :: 0 <= i < |explored| && explored[i].TrajLen() == len {
        if len in TableOf(pre) {
          var i :| 0 <= i < |pre| && pre[i].TrajLen() == len;
          assert explored[i] == pre[i];
        } else {
          assert explored[|explored| - 1].TrajLen() == len;
        }
      }
      forall len | exists i :: 0 <= i < |explored| && explored[i].TrajLen() == len ensures len in TableOf(explored) {
        var i :| 0 <= i < |explored| && explored[i].TrajLen() == len;
        if i < |pre| {
          assert pre[i] == explored[i];
        }
      }
    }
  }

  /** No explored node beats the table at its length. */
  lemma {:induction false} TableIsMax(explored: seq<DLSNode>, i: nat)
    requires i < |explored|
    ensures explored[i].TrajLen() in TableOf(explored)
    ensures explored[i].score <= TableOf(explored)[explored[i].TrajLen()].score
  {
    var pre := explored[..|explored| - 1];
    if i < |pre| {
      TableIsMax(pre, i);
      assert pre[i] == explored[i];
    }
  }

  /**
   * Each entry comes from an explored node `explored[i]`: the entry is its
   * score and path, and every earlier node of the same length scored strictly
   * less, so among nodes of equal best score the first one is kept.
   */
  lemma {:induction false} TableWitness(explored: seq<DLSNode>, len: int) returns (i: nat)
    requires len in TableOf(explored)
    ensures i < |explored| && explored[i].TrajLen() == len
    ensures TableOf(explored)[len] == MEntry(explored[i].score, explored[i].Path())
    ensures forall k :: 0 <= k < i && explored[k].TrajLen() == len ==> explored[k].score < explored[i].score
  {
    var pre := explored[..|explored| - 1];
    var last := explored[|explored| - 1];
    if len in TableOf(pre) && TableOf(explored)[len] == TableOf(pre)[len] && (len != last.TrajLen() || last.score <= TableOf(pre)[len].score) {
      i := TableWitness(pre, len);
      assert explored[i] == pre[i];
      forall k | 0 <= k < i && explored[k].TrajLen() == len ensures explored[k].score < explored[i].score {
        assert explored[k] == pre[k];
      }
    } else {
      i := |explored| - 1;
      forall k | 0 <= k < i && explored[k].TrajLen() == len ensures explored[k].score < explored[i].score {
        TableIsMax(pre, k);
        assert explored[k] == pre[k];
      }
    }
  }
}
