/** The `products` collection and its adapter (src/models/products.model.js):
    documents keyed by id. Reads attach the id to the data; `create` stamps
    both timestamps; `update` merges the given fields and a new `updatedAt`
    into one document; `remove` deletes one document. A failing Firestore
    call is a `fault` argument, rethrown unchanged with nothing written. */
module ProductsModel {
  import opened Wrappers
  import opened Documents

  /** Firestore's error when `updateDoc` targets a missing document. */
  const NoDocumentToUpdate := "No document to update"

  /** `{ ...data, createdAt, updatedAt }`: the stored timestamps replace any
      the data carried. */
  function Stamped(data: Doc, stamp: string): (d: Doc)
    ensures d.Keys == data.Keys + {"createdAt", "updatedAt"}
    ensures d["createdAt"] == Str(stamp) && d["updatedAt"] == Str(stamp)
    ensures forall f | f in data && f != "createdAt" && f != "updatedAt" :: d[f] == data[f]
  {
    data + map["createdAt" := Str(stamp), "updatedAt" := Str(stamp)]
  }

  /** `updateDoc(ref, { ...data, updatedAt })`: the given fields overwrite,
      the others are kept. */
  function Merged(current: Doc, data: Doc, stamp: string): (d: Doc)
    ensures d.Keys == current.Keys + data.Keys + {"updatedAt"}
    ensures d["updatedAt"] == Str(stamp)
    ensures forall f | f in data && f != "updatedAt" :: d[f] == data[f]
    ensures forall f | f in current && f !in data && f != "updatedAt" :: d[f] == current[f]
  {
    current + data + map["updatedAt" := Str(stamp)]
  }

  /** The ids in `ids` are pairwise distinct. */
  ghost predicate Distinct(ids: seq<string>)
  {
    forall i, j | 0 <= i < j < |ids| :: ids[i] != ids[j]
  }

  class ProductStore {
    var docs: map<string, Doc>

    constructor (docs: map<string, Doc>)
      ensures this.docs == docs
    {
      this.docs := docs;
    }

    /** `getAll`: one entry per stored document, each its data with the id
        attached; `order` is the (unspecified) order of the snapshot. */
    method GetAll(fault: Option<string>) returns (r: Result<seq<Doc>, string>, ghost order: seq<string>)
      ensures fault.Some? ==> r == Failure(fault.value)
      ensures fault.None? ==>
        && r.Success?
        && |r.value| == |order| == |docs|
        && Distinct(order)
        && (forall id :: id in docs <==> id in order)
        && (forall i | 0 <= i < |order| :: order[i] in docs && r.value[i] == WithId(order[i], docs[order[i]]))
    {
      order := [];
      if fault.Some? {
        return Failure(fault.value), order;
      }
      var products: seq<Doc> := [];
      var remaining := docs.Keys;
      while remaining != {}
        invariant remaining <= docs.Keys
        invariant |products| == |order| && |order| + |remaining| == |docs|
        invariant Distinct(order)
        invariant forall id :: id in docs <==> id in order || id in remaining
        invariant forall i | 0 <= i < |order| :: order[i] in docs && order[i] !in remaining
        invariant forall i | 0 <= i < |order| :: products[i] == WithId(order[i], docs[order[i]])
        decreases remaining
      {
        var id :| id in remaining;
        products := products + [WithId(id, docs[id])];
        order := order + [id];
        remaining := remaining - {id};
      }
      r := Success(products);
    }

    /** `getById`: the document with its id attached, or nothing when absent. */
    method GetById(id: string, fault: Option<string>) returns (r: Result<Option<Doc>, string>)
      ensures fault.Some? ==> r == Failure(fault.value)
      ensures fault.None? ==> r.Success? && (r.value.None? <==> id !in docs)
      ensures fault.None? && id in docs ==> r.value == Some(WithId(id, docs[id]))
    {
      if fault.Some? {
        return Failure(fault.value);
      }
      if id !in docs {
        return Success(None);
      }
      r := Success(Some(WithId(id, docs[id])));
    }

    /** `create`: store the stamped data under the id the store assigns and
        return that id. */
    method Create(data: Doc, newId: string, stamp: string, fault: Option<string>) returns (r: Result<string, string>)
      requires newId !in docs
      modifies this
      ensures fault.Some? ==> r == Failure(fault.value) && docs == old(docs)
      ensures fault.None? ==> r == Success(newId) && docs == old(docs)[newId := Stamped(data, stamp)]
    {
      if fault.Some? {
        return Failure(fault.value);
      }
      docs := docs[newId := Stamped(data, stamp)];
      r := Success(newId);
    }

    /** `update`: merge the fields into that one document and return its id;
        a missing document makes Firestore throw. */
    method Update(id: string, data: Doc, stamp: string, fault: Option<string>) returns (r: Result<string, string>)
      modifies this
      ensures fault.Some? ==> r == Failure(fault.value) && docs == old(docs)
      ensures fault.None? && id !in old(docs) ==> r == Failure(NoDocumentToUpdate) && docs == old(docs)
      ensures fault.None? && id in old(docs) ==>
        r == Success(id) && docs == old(docs)[id := Merged(old(docs)[id], data, stamp)]
    {
      if fault.Some? {
        return Failure(fault.value);
      }
      if id !in docs {
        return Failure(NoDocumentToUpdate);
      }
      docs := docs[id := Merged(docs[id], data, stamp)];
      r := Success(id);
    }

    /** `remove`: delete that one document (deleting a missing one is not an
        error) and return its id. */
    method Remove(id: string, fault: Option<string>) returns (r: Result<string, string>)
      modifies this
      ensures fault.Some? ==> r == Failure(fault.value) && docs == old(docs)
      ensures fault.None? ==> r == Success(id) && docs == old(docs) - {id}
    {
      if fault.Some? {
        return Failure(fault.value);
      }
      docs := docs - {id};
      r := Success(id);
    }
  }
}
