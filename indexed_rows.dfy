/** Response rows paired with their positions. */
module IndexedRows {
  import opened Js

  /** An array element with its index, as `forEach((row, idx) => …)` sees it. */
  datatype Indexed = Indexed(idx: nat, row: JsValue)

  function Positions(items: seq<JsValue>): (r: seq<Indexed>)
    ensures |r| == |items| && forall i :: 0 <= i < |items| ==> r[i] == Indexed(i, items[i])
  {
    seq(|items|, i requires 0 <= i < |items| => Indexed(i, items[i]))
  }
}
