/**
 * Keeping the elements of a sequence that pass a test, in their original
 * order: once as a filter, once as the list of positions that pass, and the
 * proof that the two agree.
 */
module Selection {

  /** The elements that pass keep, in order. */
  function Selected<T>(data: seq<T>, keep: T -> bool): (kept: seq<T>)
    ensures |kept| <= |data|
    ensures forall x :: x in kept ==> x in data && keep(x)
    ensures kept == [] <==> forall j :: 0 <= j < |data| ==> !keep(data[j])
  {
    if data == [] then []
    else
      var rest := Selected(data[1..], keep);
      assert forall x :: x in data[1..] ==> x in data;
      assert forall j :: 1 <= j < |data| ==> data[j] == data[1..][j - 1];
      if keep(data[0]) then [data[0]] + rest else rest
  }

  lemma {:induction false} SelectedAppend<T>(data: seq<T>, x: T, keep: T -> bool)
    ensures Selected(data + [x], keep) == Selected(data, keep) + (if keep(x) then [x] else [])
  {
    if data == [] {
      assert [] + [x] == [x];
      assert [x][1..] == [];
    } else {
      assert (data + [x])[1..] == data[1..] + [x];
      SelectedAppend(data[1..], x, keep);
    }
  }

  lemma {:induction false} SelectedAll<T>(data: seq<T>, keep: T -> bool)
    requires forall j :: 0 <= j < |data| ==> keep(data[j])
    ensures Selected(data, keep) == data
  {
    if data != [] {
      assert forall j :: 1 <= j < |data| ==> data[j] == data[1..][j - 1];
      SelectedAll(data[1..], keep);
    }
  }

  /**
   * The positions whose element passes keep: each position at most once,
   * in increasing order, and a position is listed exactly when its element
   * passes.
   */
  function MatchIndices<T>(data: seq<T>, keep: T -> bool): (ix: seq<nat>)
    ensures |ix| <= |data|
    ensures forall k :: 0 <= k < |ix| ==> ix[k] < |data|
    ensures forall k, l :: 0 <= k < l < |ix| ==> ix[k] < ix[l]
    ensures forall j :: 0 <= j < |data| ==> (j in ix <==> keep(data[j]))
  {
    if data == [] then []
    else
      var n := |data| - 1;
      var front := MatchIndices(data[..n], keep);
      assert forall j :: 0 <= j < n ==> data[..n][j] == data[j];
      if keep(data[n]) then front + [n] else front
  }

  /** Filtering and picking by position agree: the kept elements are the elements at the passing positions. */
  lemma {:induction false} SelectedAtIndices<T>(data: seq<T>, keep: T -> bool)
    ensures var ix := MatchIndices(data, keep);
      |Selected(data, keep)| == |ix| &&
      forall k :: 0 <= k < |ix| ==> Selected(data, keep)[k] == data[ix[k]]
  {
    if data != [] {
      var n := |data| - 1;
      var front := data[..n];
      assert front + [data[n]] == data;
      SelectedAtIndices(front, keep);
      SelectedAppend(front, data[n], keep);
      PickAppend(front, data[n], Selected(front, keep), MatchIndices(front, keep), keep(data[n]));
    }
  }

  /** One more element: picking it too, or not, keeps the kept elements equal to the elements at the listed positions. */
  lemma PickAppend<T>(front: seq<T>, x: T, kept: seq<T>, ix: seq<nat>, take: bool)
    requires |kept| == |ix|
    requires forall k :: 0 <= k < |ix| ==> ix[k] < |front| && kept[k] == front[ix[k]]
    ensures var kept' := if take then kept + [x] else kept;
      var ix' := if take then ix + [|front|] else ix;
      |kept'| == |ix'| && forall k :: 0 <= k < |ix'| ==> kept'[k] == (front + [x])[ix'[k]]
  {
  }
}
