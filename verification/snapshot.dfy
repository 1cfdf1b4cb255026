/** Cached snapshots: the envelope the tool writes around a fetched list
    (`create_output_data` in utils/helpers.py) and the unwrapping of a
    decoded snapshot when it is read back (`_load_cached_data` in
    services/comparison_service.py). Reading and writing files and the JSON
    text encoding are not modelled; values are already-decoded JSON. */
module Snapshot {
  import opened Wrappers
  import opened Seqs

  /** A decoded JSON value. Numbers are integers: no count or id the tool
      writes is fractional. */
  datatype Json =
    | JNull
    | JBool(b: bool)
    | JNum(n: int)
    | JStr(s: string)
    | JArr(items: seq<Json>)
    | JObj(fields: map<string, Json>)

  /** A JSON object: what the source calls a record dictionary. */
  type Dict = map<string, Json>

  predicate IsObject(j: Json) { j.JObj? }

  /** The dictionaries of a list viewed as JSON values again. */
  function AsJson(ds: seq<Dict>): (r: seq<Json>)
    ensures |r| == |ds|
    ensures forall i :: 0 <= i < |ds| ==> r[i] == JObj(ds[i])
  {
    seq(|ds|, i requires 0 <= i < |ds| => JObj(ds[i]))
  }

  /** `[x for x in xs if x is not None and isinstance(x, dict)]`: the
      objects of a list, in order; viewed as JSON again they are exactly
      what a filter on "is an object" keeps. */
  function Objects(xs: seq<Json>): (r: seq<Dict>)
    ensures AsJson(r) == Filter(xs, IsObject)
    decreases |xs|
  {
    if |xs| == 0 then []
    else
      var rest := Objects(xs[1..]);
      if xs[0].JObj? then
        assert AsJson([xs[0].fields] + rest) == [xs[0]] + AsJson(rest);
        [xs[0].fields] + rest
      else rest
  }

  /** A list holding only objects loses nothing to the object filter. */
  lemma ObjectsOfDicts(ds: seq<Dict>)
    ensures Objects(AsJson(ds)) == ds
  {
    FilterAll(AsJson(ds), IsObject);
    AsJsonInjective(Objects(AsJson(ds)), ds);
  }

  lemma AsJsonInjective(a: seq<Dict>, b: seq<Dict>)
    requires AsJson(a) == AsJson(b)
    ensures a == b
  {
    assert |a| == |b|;
    forall i | 0 <= i < |a| ensures a[i] == b[i] {
      assert AsJson(a)[i] == AsJson(b)[i];
    }
  }

  /** `_load_cached_data` once the file is decoded: an object with a list
      under `data` yields that list's objects; a bare list yields its
      objects; anything else (including an object whose `data` is not a
      list, or that has no `data`) yields `None`. */
  function LoadCached(data: Json): (r: Option<seq<Dict>>)
    ensures data.JArr? ==> r == Some(Objects(data.items))
    ensures data.JObj? ==>
      if "data" in data.fields && data.fields["data"].JArr?
      then r == Some(Objects(data.fields["data"].items))
      else r == None
    ensures !data.JArr? && !data.JObj? ==> r == None
  {
    match data
    case JObj(fields) =>
      if "data" in fields then
        match fields["data"]
        case JArr(raw) => Some(Objects(raw))
        case _ => None
      else None
    case JArr(items) => Some(Objects(items))
    case _ => None
  }

  /** `create_output_data(data, data_type)` with the timestamp, taken from
      the clock in the source, passed in. */
  function CreateOutputData(data: seq<Dict>, dataType: string, timestamp: string): (r: Json)
    ensures r.JObj? && r.fields.Keys == {"timestamp", "data_type", "total_count", "data"}
    ensures r.fields["total_count"] == JNum(|data|)
    ensures r.fields["data"] == JArr(AsJson(data))
    ensures r.fields["data_type"] == JStr(dataType) && r.fields["timestamp"] == JStr(timestamp)
  {
    JObj(map[
      "timestamp" := JStr(timestamp),
      "data_type" := JStr(dataType),
      "total_count" := JNum(|data|),
      "data" := JArr(AsJson(data))])
  }

  /** Writing a list in the envelope and loading it back gives the list, and
      so does loading the bare list. */
  lemma EnvelopeRoundTrip(data: seq<Dict>, dataType: string, timestamp: string)
    ensures LoadCached(CreateOutputData(data, dataType, timestamp)) == Some(data)
    ensures LoadCached(JArr(AsJson(data))) == Some(data)
  {
    ObjectsOfDicts(data);
  }

  /** `_get_agents_data` / `_get_devices_data` / `_get_vms_data`: the cached
      list when it was loaded and is non-empty, otherwise the freshly fetched
      list restricted to its objects. `fetched` stands for the service call. */
  function CacheOrFetch(cached: Option<seq<Dict>>, fetched: seq<Json>): (r: seq<Dict>)
    ensures cached.Some? && |cached.value| > 0 ==> r == cached.value
    ensures cached.None? || |cached.value| == 0 ==> AsJson(r) == Filter(fetched, IsObject)
  {
    if cached.Some? && |cached.value| > 0 then cached.value else Objects(fetched)
  }

  /** An empty cached list counts as a cache miss. */
  lemma EmptyCacheIsMiss(fetched: seq<Json>)
    ensures CacheOrFetch(Some([]), fetched) == CacheOrFetch(None, fetched)
  {
  }

  /** A non-empty snapshot written by the tool is used as is: the service
      is not consulted. */
  lemma SnapshotPreferred(data: seq<Dict>, dataType: string, timestamp: string, fetched: seq<Json>)
    requires |data| > 0
    ensures CacheOrFetch(LoadCached(CreateOutputData(data, dataType, timestamp)), fetched) == data
  {
    EnvelopeRoundTrip(data, dataType, timestamp);
  }
}
