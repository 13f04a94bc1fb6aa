/**
 * Reading `lifecycle_date_millis` out of an ILM explain response for one
 * index: the entry under the index's own name is preferred, and a response
 * with a single entry under another name is accepted as a fallback.
 */
module Lifecycle {
  import opened Wrappers

  /**
   * One entry of the response's `indices` object: its `lifecycle_date_millis`
   * field (None when absent or null) and the names of its other fields.
   */
  datatype IndexInfo = IndexInfo(lifecycleDateMillis: Option<int>, otherKeys: set<string>)

  /** Python truthiness of the entry: the object has at least one field. */
  predicate HasFields(info: IndexInfo) {
    info.lifecycleDateMillis.Some? || info.otherKeys != {}
  }

  /**
   * The outcome of the explain request: it failed (not found or any other
   * error), or it answered, with or without an `indices` object.
   */
  datatype ExplainReply = RequestFailed | Response(indices: Option<map<string, IndexInfo>>)

  lemma SingleKey(m: map<string, IndexInfo>, a: string, b: string)
    requires |m| == 1 && a in m && b in m
    ensures a == b
  {
    var rest := m.Keys - {a};
    assert m.Keys == rest + {a} && a !in rest;
    assert |rest| == 0;
    assert b in rest + {a};
  }

  /** `list(indices.values())[0]` of a one-entry object. */
  function SoleEntry(m: map<string, IndexInfo>): (info: IndexInfo)
    requires |m| == 1
    ensures forall k :: k in m ==> info == m[k]
  {
    assert exists k :: k in m by {
      var k :| k in m.Keys;
    }
    var k :| k in m;
    assert forall k' :: k' in m ==> k' == k by {
      forall k' | k' in m ensures k' == k { SingleKey(m, k, k'); }
    }
    m[k]
  }

  /**
   * The lifecycle date for `indexName`: the exact entry's field when that
   * entry exists, else the single entry's field when there is exactly one,
   * else nothing — also when the request failed or `indices` is missing or empty.
   */
  function LifecycleDateMillis(indexName: string, reply: ExplainReply): (millis: Option<int>)
    ensures reply.RequestFailed? || reply.indices.None? ==> millis == None
    ensures reply.Response? && reply.indices.Some? && indexName in reply.indices.value ==>
      millis == reply.indices.value[indexName].lifecycleDateMillis
    ensures reply.Response? && reply.indices.Some? && indexName !in reply.indices.value ==>
      if |reply.indices.value| == 1
      then forall k :: k in reply.indices.value ==> millis == reply.indices.value[k].lifecycleDateMillis
      else millis == None
  {
    match reply
    case RequestFailed => None
    case Response(indices) =>
      if indices.Some? && |indices.value| > 0 then
        var m := indices.value;
        if indexName in m && HasFields(m[indexName]) then m[indexName].lifecycleDateMillis
        else if |m| == 1 then SoleEntry(m).lifecycleDateMillis
        else None
      else None
  }
}
