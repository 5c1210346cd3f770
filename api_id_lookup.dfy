/**
 * `get_api_id`: resolving a human-readable field value to the API id of
 * the one item that carries it, through a Lucene "contains" search,
 * memoised in the process-wide `unique_item_id_map`.
 *
 * The memo is keyed by the field VALUE alone: a value first resolved
 * under one field name is answered from the cache when it is later asked
 * for under another field name.
 */
module ApiIdLookup {
  import opened Wrappers

  /**
   * `jama_client.get_abstract_items(contains=query)`, reduced to the 'id'
   * of each item it returns, in order.
   */
  type SearchOracle = string -> seq<int>

  /** `unique_item_id_map`: field value to the id it resolved to, or `None`. */
  type IdCache = map<string, Option<int>>

  /** One call of the remote search, with the two strings its query is built from. */
  datatype SearchCall = SearchCall(fieldName: string, fieldValue: string)

  /** `field_name + ':"' + field_value + '"'`. */
  function LuceneQuery(fieldName: string, fieldValue: string): (q: string)
    ensures |q| == |fieldName| + |fieldValue| + 3
    ensures fieldName <= q && q[|fieldName|] == ':' && q[|q| - 1] == '"'
  {
    fieldName + ":\"" + fieldValue + "\""
  }

  function QueryOf(call: SearchCall): string {
    LuceneQuery(call.fieldName, call.fieldValue)
  }

  /** The position of the first ':' in `s`, or `|s|` when there is none. */
  function IndexOfColon(s: string): (k: nat)
    ensures k <= |s|
    ensures k < |s| ==> s[k] == ':'
    ensures forall j :: 0 <= j < k ==> s[j] != ':'
    decreases |s|
  {
    if s == [] || s[0] == ':' then 0 else 1 + IndexOfColon(s[1..])
  }

  /** Splits a query of the shape `name:"value"` at its first colon. */
  function ParseQuery(q: string): Option<SearchCall> {
    var k := IndexOfColon(q);
    if k + 3 <= |q| && q[k + 1] == '"' && q[|q| - 1] == '"' then
      Some(SearchCall(q[..k], q[k + 2..|q| - 1]))
    else
      None
  }

  /**
   * For a field name without ':' the query determines both the field
   * name and the exact phrase searched for.
   */
  lemma ParseLuceneQuery(fieldName: string, fieldValue: string)
    requires ':' !in fieldName
    ensures ParseQuery(LuceneQuery(fieldName, fieldValue)) == Some(SearchCall(fieldName, fieldValue))
  {
    var q := LuceneQuery(fieldName, fieldValue);
    var k := IndexOfColon(q);
    assert q[|fieldName|] == ':';
    assert forall j :: 0 <= j < |fieldName| ==> q[j] == fieldName[j] != ':';
    assert k == |fieldName|;
    assert q[..k] == fieldName;
    assert q[k + 2..|q| - 1] == fieldValue;
  }

  /** The uniqueness rule: an id only when the search found exactly one item. */
  function UniqueHit(hits: seq<int>): (r: Option<int>)
    ensures r.Some? <==> |hits| == 1
    ensures r.Some? ==> hits == [r.value]
  {
    if |hits| == 1 then Some(hits[0]) else None
  }

  /** What one `get_api_id` call returns, the cache after it, and the searches it issued. */
  datatype Lookup = Lookup(id: Option<int>, cache: IdCache, searched: seq<SearchCall>)

  /**
   * `get_api_id(field_name, field_value)` against the cache `cache`. A hit
   * answers from the cache without searching; a miss searches once and
   * caches the outcome, negative outcomes included.
   */
  function ResolveId(search: SearchOracle, cache: IdCache, fieldName: string, fieldValue: string): (r: Lookup)
    ensures r.cache.Keys == cache.Keys + {fieldValue}
    ensures forall v :: v in cache ==> r.cache[v] == cache[v]
    ensures r.cache[fieldValue] == r.id
    ensures fieldValue in cache ==> r.searched == [] && r.id == cache[fieldValue]
    ensures fieldValue !in cache ==>
              && r.searched == [SearchCall(fieldName, fieldValue)]
              && r.id == UniqueHit(search(LuceneQuery(fieldName, fieldValue)))
  {
    if fieldValue in cache then
      Lookup(cache[fieldValue], cache, [])
    else
      var results := search(LuceneQuery(fieldName, fieldValue));
      var id := if |results| == 1 then Some(results[0]) else None;
      Lookup(id, cache[fieldValue := id], [SearchCall(fieldName, fieldValue)])
  }

  /**
   * Asking again for a value already asked for, under any field name,
   * returns the first answer and searches nothing.
   */
  lemma ResolveAgainIsCacheHit(search: SearchOracle, cache: IdCache, firstField: string, laterField: string, fieldValue: string)
    ensures var first := ResolveId(search, cache, firstField, fieldValue);
            ResolveId(search, first.cache, laterField, fieldValue) == Lookup(first.id, first.cache, [])
  {
  }

  function SearchedValues(calls: seq<SearchCall>): set<string> {
    set i | 0 <= i < |calls| :: calls[i].fieldValue
  }

  lemma SearchedValuesAppend(calls: seq<SearchCall>, call: SearchCall)
    ensures SearchedValues(calls + [call]) == SearchedValues(calls) + {call.fieldValue}
  {
    var longer := calls + [call];
    forall v | v in SearchedValues(longer)
      ensures v in SearchedValues(calls) + {call.fieldValue}
    {
      var i :| 0 <= i < |longer| && longer[i].fieldValue == v;
      if i < |calls| {
        assert calls[i] == longer[i];
      }
    }
    forall v | v in SearchedValues(calls)
      ensures v in SearchedValues(longer)
    {
      var i :| 0 <= i < |calls| && calls[i].fieldValue == v;
      assert longer[i] == calls[i];
    }
    assert longer[|calls|] == call;
  }

  predicate DistinctValues(calls: seq<SearchCall>) {
    forall i, j :: 0 <= i < j < |calls| ==> calls[i].fieldValue != calls[j].fieldValue
  }

  /**
   * The global `unique_item_id_map` together with the search it is filled
   * from. `searches` records every remote search issued so far.
   */
  class ItemIdResolver {
    const search: SearchOracle
    var cache: IdCache
    ghost var searches: seq<SearchCall>

    /**
     * Every cached value was searched for exactly once, and its entry is
     * the outcome of that one search.
     */
    ghost predicate Valid()
      reads this
    {
      && cache.Keys == SearchedValues(searches)
      && DistinctValues(searches)
      && forall i :: 0 <= i < |searches| ==>
           && searches[i].fieldValue in cache
           && cache[searches[i].fieldValue] == UniqueHit(search(QueryOf(searches[i])))
    }

    /** The empty map the module starts with. */
    constructor (search: SearchOracle)
      ensures Valid()
      ensures this.search == search && cache == map[] && searches == []
    {
      this.search := search;
      cache := map[];
      searches := [];
    }

    /** `get_api_id(field_name, field_value)`. */
    method GetApiId(fieldName: string, fieldValue: string) returns (id: Option<int>)
      requires Valid()
      modifies this
      ensures Valid()
      ensures var r := ResolveId(search, old(cache), fieldName, fieldValue);
              id == r.id && cache == r.cache && searches == old(searches) + r.searched
    {
      if fieldValue in cache {
        return cache[fieldValue];
      }
      var luceneSearch := LuceneQuery(fieldName, fieldValue);
      var results := search(luceneSearch);
      if |results| == 1 {
        cache := cache[fieldValue := Some(results[0])];
        id := Some(results[0]);
      } else {
        cache := cache[fieldValue := None];
        id := None;
      }
      SearchedValuesAppend(searches, SearchCall(fieldName, fieldValue));
      searches := searches + [SearchCall(fieldName, fieldValue)];
    }
  }
}
