/**
 * Payload operations on points: which of them are writes, and how each is cut
 * into per-shard pieces. Where points go is decided by the hash ring, which is
 * not modelled: the split of a list of point ids is a parameter.
 */
module PayloadOps {
  import opened Common

  /** A point id, a filter and a payload are not interpreted here. */
  type PointId(==, !new)
  type Filter(==)
  type Payload(==)

  /** Name of a payload field. */
  type PayloadKey = string

  /** Removal of some payload keys from some points. */
  datatype DeletePayload = DeletePayload(keys: seq<PayloadKey>, points: seq<PointId>)

  /** The payload operations. */
  datatype PayloadOps =
    | SetPayload(points: seq<PointId>, payload: Payload)
    | SetPayloadByFilter(filter: Filter, payload: Payload)
    | DeletePayload(deleteOp: DeletePayload)
    | ClearPayload(points: seq<PointId>)
    | ClearPayloadByFilter(clearFilter: Filter)

  /** Write operations are the ones a write lock refuses. */
  function IsWriteOperation(op: PayloadOps): (r: bool)
    ensures r <==> op.SetPayload? || op.SetPayloadByFilter?
  {
    match op
    case SetPayload(_, _) => true
    case SetPayloadByFilter(_, _) => true
    case DeletePayload(_) => false
    case ClearPayload(_) => false
    case ClearPayloadByFilter(_) => false
  }

  /** An operation cut into pieces, one per shard, or one operation for every shard. */
  datatype OperationToShard<O> = ByShard(pieces: seq<(ShardId, O)>) | ToAll(op: O) {
    /** Applies `f` to every piece (or to the operation sent to all shards). */
    function Map<P>(f: O -> P): (r: OperationToShard<P>)
      ensures ToAll? <==> r.ToAll?
      ensures ToAll? ==> r.op == f(op)
      ensures ByShard? ==> (|r.pieces| == |pieces| &&
        forall i :: 0 <= i < |pieces| ==> r.pieces[i] == (pieces[i].0, f(pieces[i].1)))
    {
      match this
      case ByShard(ps) => ByShard(seq(|ps|, i requires 0 <= i < |ps| => (ps[i].0, f(ps[i].1))))
      case ToAll(o) => ToAll(f(o))
    }
  }

  /** How `split_iter_by_shard` with the hash ring groups point ids by shard. */
  type PointSplit = seq<PointId> -> seq<(ShardId, seq<PointId>)>

  /** A split that only ever puts given points into the pieces. */
  ghost predicate SplitsWithin(split: PointSplit) {
    forall points: seq<PointId>, i, j :: 0 <= i < |split(points)| && 0 <= j < |split(points)[i].1| ==>
      split(points)[i].1[j] in points
  }

  /** `SplitByShard for DeletePayload`: each piece keeps the full key list. */
  function SplitDeletePayload(op: DeletePayload, split: PointSplit): OperationToShard<DeletePayload> {
    ByShard(split(op.points)).Map((points: seq<PointId>) => DeletePayload.DeletePayload(op.keys, points))
  }

  /** `SplitByShard for PayloadOps`. */
  function SplitByShard(op: PayloadOps, split: PointSplit): OperationToShard<PayloadOps> {
    match op
    case SetPayload(points, payload) =>
      ByShard(split(points)).Map((ps: seq<PointId>) => PayloadOps.SetPayload(ps, payload))
    case SetPayloadByFilter(_, _) => ToAll(op)
    case DeletePayload(d) =>
      SplitDeletePayload(d, split).Map((piece: DeletePayload) => PayloadOps.DeletePayload(piece))
    case ClearPayload(points) =>
      ByShard(split(points)).Map((ps: seq<PointId>) => PayloadOps.ClearPayload(ps))
    case ClearPayloadByFilter(_) => ToAll(op)
  }

  /** The points a point-listing payload operation names. */
  function PointsOf(op: PayloadOps): seq<PointId>
    requires !op.SetPayloadByFilter? && !op.ClearPayloadByFilter?
  {
    match op
    case SetPayload(points, _) => points
    case DeletePayload(d) => d.points
    case ClearPayload(points) => points
  }

  /** Two operations are the same kind of payload operation. */
  predicate SameVariant(a: PayloadOps, b: PayloadOps) {
    (a.SetPayload? && b.SetPayload?) || (a.SetPayloadByFilter? && b.SetPayloadByFilter?) ||
    (a.DeletePayload? && b.DeletePayload?) || (a.ClearPayload? && b.ClearPayload?) ||
    (a.ClearPayloadByFilter? && b.ClearPayloadByFilter?)
  }

  /** Filter operations are sent unchanged to every shard. */
  lemma FilterOperationsGoToAll(op: PayloadOps, split: PointSplit)
    ensures SplitByShard(op, split).ToAll? <==> op.SetPayloadByFilter? || op.ClearPayloadByFilter?
    ensures SplitByShard(op, split).ToAll? ==> SplitByShard(op, split).op == op
  {
  }

  /**
   * Splitting keeps the kind of operation and everything but the point list:
   * `SetPayload` pieces carry the original payload, `DeletePayload` pieces the
   * original keys; piece i holds the points of group i of the split.
   */
  lemma SplitKeepsOperation(op: PayloadOps, split: PointSplit)
    requires !op.SetPayloadByFilter? && !op.ClearPayloadByFilter?
    ensures var r := SplitByShard(op, split);
      r.ByShard? && |r.pieces| == |split(PointsOf(op))| &&
      forall i :: 0 <= i < |r.pieces| ==>
        && r.pieces[i].0 == split(PointsOf(op))[i].0
        && SameVariant(r.pieces[i].1, op)
        && PointsOf(r.pieces[i].1) == split(PointsOf(op))[i].1
        && (op.SetPayload? ==> r.pieces[i].1.payload == op.payload)
        && (op.DeletePayload? ==> r.pieces[i].1.deleteOp.keys == op.deleteOp.keys)
  {
  }

  /** With a split that keeps to the given points, no piece names a point the operation does not. */
  lemma SplitPiecesWithinOperation(op: PayloadOps, split: PointSplit)
    requires SplitsWithin(split)
    requires !op.SetPayloadByFilter? && !op.ClearPayloadByFilter?
    ensures var r := SplitByShard(op, split);
      forall i, j :: 0 <= i < |r.pieces| && 0 <= j < |PointsOf(r.pieces[i].1)| ==>
        PointsOf(r.pieces[i].1)[j] in PointsOf(op)
  {
    SplitKeepsOperation(op, split);
    var r := SplitByShard(op, split);
    forall i, j | 0 <= i < |r.pieces| && 0 <= j < |PointsOf(r.pieces[i].1)|
      ensures PointsOf(r.pieces[i].1)[j] in PointsOf(op)
    {
      assert PointsOf(r.pieces[i].1)[j] == split(PointsOf(op))[i].1[j];
    }
  }
}
