/**
 * `get_multilevel_jsons_keys`: the keys of the JSON document carried by the
 * page's `<script type="application/json">` element, as written. Each step of
 * the `try` block is a partial operation; `None` is the exception it raises, and
 * the bare `except` turns any exception into two empty sets.
 */
module JsonState {
  import opened Wrappers

  /** A value `json.loads` returns. */
  datatype Json =
    | JNull
    | JBool(b: bool)
    | JNumber(n: real)
    | JString(s: string)
    | JArray(items: seq<Json>)
    | JObject(members: map<string, Json>)

  /** The carrier element: `decoded` is what `json.loads` makes of its text,
      `None` when the text is not valid JSON. */
  datatype Carrier = Carrier(decoded: Option<Json>)

  /** `json.loads(soup.find(...).text)`: fails when there is no carrier element
      (`.text` of `None`) or when its text is not JSON. */
  function LoadCarrier(carrier: Option<Carrier>): Option<Json>
  {
    match carrier
    case None => None
    case Some(c) => c.decoded
  }

  /** `set(value.keys())`: only an object has `keys`. */
  function KeySet(value: Json): Option<set<string>>
  {
    if value.JObject? then Some(value.members.Keys) else None
  }

  /** `list(keys.values())` on the set built by the previous step: a Python set
      has no `values` method, so this step raises whatever the set holds. */
  function SetValues(keys: set<string>): Option<seq<Json>>
  {
    None
  }

  /** The keys of the values that are objects, one level down. */
  function NestedKeys(values: seq<Json>): set<string>
  {
    if values == [] then {}
    else (if values[0].JObject? then values[0].members.Keys else {}) + NestedKeys(values[1..])
  }

  /** The `try` block, step by step; any failing step gives `({}, {})`. */
  function MultilevelJsonKeys(carrier: Option<Carrier>): (keys: (set<string>, set<string>))
    ensures keys == ({}, {})
  {
    match LoadCarrier(carrier)
    case None => ({}, {})
    case Some(value) =>
      match KeySet(value)
      case None => ({}, {})
      case Some(top) =>
        match SetValues(top)
        case None => ({}, {})
        case Some(values) => (top, NestedKeys(values))
  }

  /** Which step raises: the load for a missing carrier or invalid JSON, the key
      set for a top level that is not an object, and `values` for every object. */
  lemma FailingStep(carrier: Option<Carrier>)
    ensures carrier.None? || carrier.value.decoded.None? ==> LoadCarrier(carrier).None?
    ensures LoadCarrier(carrier).Some? && !LoadCarrier(carrier).value.JObject? ==>
      KeySet(LoadCarrier(carrier).value).None?
    ensures LoadCarrier(carrier).Some? && LoadCarrier(carrier).value.JObject? ==>
      KeySet(LoadCarrier(carrier).value).Some? && SetValues(KeySet(LoadCarrier(carrier).value).value).None?
  {
  }

  /** What lines 101-102 would collect if the step before them succeeded: the keys
      of exactly those values that are objects, one level down and no deeper. */
  lemma {:induction false} NestedKeysMembers(values: seq<Json>, x: string)
    ensures x in NestedKeys(values) <==> exists k | 0 <= k < |values| :: values[k].JObject? && x in values[k].members
  {
    if values != [] {
      NestedKeysMembers(values[1..], x);
      if exists k | 0 <= k < |values| :: values[k].JObject? && x in values[k].members {
        var k :| 0 <= k < |values| && values[k].JObject? && x in values[k].members;
        if k > 0 {
          assert values[1..][k - 1] == values[k];
        }
      }
      if x in NestedKeys(values[1..]) {
        var k :| 0 <= k < |values[1..]| && values[1..][k].JObject? && x in values[1..][k].members;
        assert values[k + 1] == values[1..][k];
      }
    }
  }
}
