/**
 * Update operations on a collection's points and the part of a shard each one
 * can touch (its effect area): nothing, a list of points, or the points a
 * filter selects.
 */
module OperationEffect {
  import opened Common
  import opened PayloadOps

  /** Vector data of a point, not interpreted here. */
  type VectorData(==)

  /** A point as sent by a client. */
  datatype PointStruct = PointStruct(id: PointId, vector: VectorData)

  /** Points given column-wise: ids and vectors side by side. */
  datatype Batch = Batch(ids: seq<PointId>, vectors: seq<VectorData>)

  /** Points to upsert, as a batch or as a list. */
  datatype PointInsertOperations =
    | PointsBatch(batch: Batch)
    | PointsList(list: seq<PointStruct>)

  /** Replacement of the points in an id range by the given points. */
  datatype PointSyncOperation = PointSyncOperation(fromId: Option<PointId>, toId: Option<PointId>, points: seq<PointStruct>)

  /** Operations on points. */
  datatype PointOperations =
    | UpsertPoints(insert: PointInsertOperations)
    | DeletePoints(ids: seq<PointId>)
    | DeletePointsByFilter(filter: Filter)
    | SyncPoints(sync: PointSyncOperation)

  /** Creation or removal of a payload field index. */
  datatype FieldIndexOperations =
    | CreateIndex(fieldName: PayloadKey)
    | DeleteIndex(fieldName: PayloadKey)

  /** All update operations on a collection. */
  datatype CollectionUpdateOperations =
    | PointOperation(pointOp: PointOperations)
    | PayloadOperation(payloadOp: PayloadOps)
    | FieldIndexOperation(indexOp: FieldIndexOperations)

  /** Upserts and syncs write points; the payload operations say for themselves; index changes do not write. */
  function IsWriteUpdate(op: CollectionUpdateOperations): (r: bool)
    ensures op.PayloadOperation? ==> (r <==> IsWriteOperation(op.payloadOp))
    ensures op.FieldIndexOperation? ==> !r
    ensures op.PointOperation? ==> (r <==> op.pointOp.UpsertPoints? || op.pointOp.SyncPoints?)
  {
    match op
    case PointOperation(p) => p.UpsertPoints? || p.SyncPoints?
    case PayloadOperation(p) => IsWriteOperation(p)
    case FieldIndexOperation(_) => false
  }

  /** What part of a shard an operation can affect. */
  datatype OperationEffectArea =
    | Empty
    | Points(points: seq<PointId>)
    | Filter(filter: Filter)

  /** The ids of a list of points, in list order. */
  function IdsOf(list: seq<PointStruct>): (ids: seq<PointId>)
    ensures |ids| == |list|
    ensures forall i :: 0 <= i < |list| ==> ids[i] == list[i].id
  {
    if |list| == 0 then [] else [list[0].id] + IdsOf(list[1..])
  }

  /** Effect area of an upsert. */
  function InsertEffectArea(op: PointInsertOperations): OperationEffectArea {
    match op
    case PointsBatch(batch) => Points(batch.ids)
    case PointsList(list) => Points(IdsOf(list))
  }

  /** Effect area of a point operation. */
  function PointEffectArea(op: PointOperations): OperationEffectArea {
    match op
    case UpsertPoints(insert) => InsertEffectArea(insert)
    case DeletePoints(ids) => Points(ids)
    case DeletePointsByFilter(filter) => Filter(filter)
    case SyncPoints(sync) => Points(IdsOf(sync.points))
  }

  /** The payload operations that have an effect area: every one but `SetPayloadByFilter`. */
  predicate HasEffectArea(op: CollectionUpdateOperations) {
    !(op.PayloadOperation? && op.payloadOp.SetPayloadByFilter?)
  }

  /** Effect area of a payload operation. */
  function PayloadEffectArea(op: PayloadOps): OperationEffectArea
    requires !op.SetPayloadByFilter?
  {
    match op
    case SetPayload(points, _) => Points(points)
    case DeletePayload(d) => Points(d.points)
    case ClearPayload(points) => Points(points)
    case ClearPayloadByFilter(filter) => Filter(filter)
  }

  /** `estimate_effect_area` for the update operations. */
  function EstimateEffectArea(op: CollectionUpdateOperations): OperationEffectArea
    requires HasEffectArea(op)
  {
    match op
    case PointOperation(p) => PointEffectArea(p)
    case PayloadOperation(p) => PayloadEffectArea(p)
    case FieldIndexOperation(_) => Empty
  }

  /** Reference definition: the points an operation names explicitly, by id. */
  ghost predicate Mentions(op: CollectionUpdateOperations, p: PointId) {
    match op
    case PointOperation(UpsertPoints(PointsBatch(batch))) => p in batch.ids
    case PointOperation(UpsertPoints(PointsList(list))) => exists i :: 0 <= i < |list| && list[i].id == p
    case PointOperation(DeletePoints(ids)) => p in ids
    case PointOperation(DeletePointsByFilter(_)) => false
    case PointOperation(SyncPoints(sync)) => exists i :: 0 <= i < |sync.points| && sync.points[i].id == p
    case PayloadOperation(SetPayload(points, _)) => p in points
    case PayloadOperation(SetPayloadByFilter(_, _)) => false
    case PayloadOperation(DeletePayload(d)) => p in d.points
    case PayloadOperation(ClearPayload(points)) => p in points
    case PayloadOperation(ClearPayloadByFilter(_)) => false
    case FieldIndexOperation(_) => false
  }

  /** Reference definition: operations that select points by a filter. */
  predicate SelectsByFilter(op: CollectionUpdateOperations) {
    (op.PointOperation? && op.pointOp.DeletePointsByFilter?) ||
    (op.PayloadOperation? && (op.payloadOp.SetPayloadByFilter? || op.payloadOp.ClearPayloadByFilter?))
  }

  /**
   * The kind of area follows the kind of operation: index changes touch no
   * point, filter operations carry their filter, the rest list points.
   */
  lemma EffectAreaKinds(op: CollectionUpdateOperations)
    requires HasEffectArea(op)
    ensures EstimateEffectArea(op).Empty? <==> op.FieldIndexOperation?
    ensures EstimateEffectArea(op).Filter? <==> SelectsByFilter(op)
    ensures op.PointOperation? && op.pointOp.DeletePointsByFilter? ==>
      EstimateEffectArea(op) == Filter(op.pointOp.filter)
    ensures op.PayloadOperation? && op.payloadOp.ClearPayloadByFilter? ==>
      EstimateEffectArea(op) == Filter(op.payloadOp.clearFilter)
  {
  }

  /**
   * Listed areas are exact: deletions, payload changes and batch upserts
   * give their id list, list upserts and syncs the ids of their points in order.
   */
  lemma PointsAreaIsTheOperationsList(op: CollectionUpdateOperations)
    requires HasEffectArea(op)
    ensures op.PointOperation? && op.pointOp.DeletePoints? ==>
      EstimateEffectArea(op) == Points(op.pointOp.ids)
    ensures op.PointOperation? && op.pointOp.UpsertPoints? && op.pointOp.insert.PointsBatch? ==>
      EstimateEffectArea(op) == Points(op.pointOp.insert.batch.ids)
    ensures op.PointOperation? && op.pointOp.UpsertPoints? && op.pointOp.insert.PointsList? ==>
      var list := op.pointOp.insert.list;
      EstimateEffectArea(op).Points? && |EstimateEffectArea(op).points| == |list| &&
      forall i :: 0 <= i < |list| ==> EstimateEffectArea(op).points[i] == list[i].id
    ensures op.PayloadOperation? && !SelectsByFilter(op) ==>
      EstimateEffectArea(op) == Points(PointsOf(op.payloadOp))
  {
  }

  /** A listed area names exactly the points the operation mentions. */
  lemma {:induction false} PointsAreaMatchesMentions(op: CollectionUpdateOperations)
    requires HasEffectArea(op)
    ensures EstimateEffectArea(op).Points? ==>
      forall p :: p in EstimateEffectArea(op).points <==> Mentions(op, p)
    ensures !EstimateEffectArea(op).Points? ==> forall p :: !Mentions(op, p)
  {
    match op
    case PointOperation(UpsertPoints(PointsList(list))) =>
      IdsOfMembers(list);
    case PointOperation(SyncPoints(sync)) =>
      IdsOfMembers(sync.points);
    case _ =>
  }

  /** A point is in the id list of a point list exactly when some element has that id. */
  lemma IdsOfMembers(list: seq<PointStruct>)
    ensures forall p :: p in IdsOf(list) <==> exists i :: 0 <= i < |list| && list[i].id == p
  {
    forall p | p in IdsOf(list)
      ensures exists i :: 0 <= i < |list| && list[i].id == p
    {
      var i :| 0 <= i < |IdsOf(list)| && IdsOf(list)[i] == p;
      assert list[i].id == p;
    }
  }
}
