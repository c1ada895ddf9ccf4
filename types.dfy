/** The records that flow from the source adapters into the merge engine
    (the `Bookmark` and `Highlight` interfaces of src/global.d.ts), the
    property records the engine writes, and the error signal that stands for
    a thrown exception. */
module Types {

  datatype Option<+T> = None | Some(value: T)

  /** A value, or the message of the exception that was thrown instead. */
  datatype Result<+T> = Ok(value: T) | Err(error: string)

  /** Completion of an operation that returns nothing: normal, or thrown. */
  datatype Outcome = Done | Failed(error: string)

  /** A value as a JavaScript property record holds it. */
  datatype Value = Undef | Str(s: string) | List(items: seq<string>)

  /** JavaScript truthiness of a property value: `undefined` and `''` are
      falsy, every array (even an empty one) is truthy. */
  predicate Truthy(v: Value) {
    match v
    case Undef => false
    case Str(s) => s != ""
    case List(_) => true
  }

  /** An optional string as a property value (`undefined` when absent). */
  function OfOption(o: Option<string>): Value {
    match o
    case None => Undef
    case Some(s) => Str(s)
  }

  /** `!!s` for an optional string setting: it holds exactly when the value
      the setting stands for is truthy. The `enabled` getters of the
      Readwise and Hacker News sources are this test of their one setting. */
  function Present(o: Option<string>): (r: bool)
    ensures r <==> Truthy(OfOption(o))
  {
    o.Some? && o.value != ""
  }

  /** A property record in insertion order (`Object.keys` order for the
      non-numeric keys the importer uses). */
  type Properties = seq<(string, Value)>

  function Keys(p: Properties): (r: seq<string>)
    ensures |r| == |p|
    ensures forall i :: 0 <= i < |p| ==> r[i] == p[i].0
  {
    if p == [] then [] else [p[0].0] + Keys(p[1..])
  }

  /** `p[k]`: the value written last under `k`, `undefined` when absent. */
  function Get(p: Properties, k: string): Value
    decreases |p|
  {
    if p == [] then Undef
    else if k in Keys(p[1..]) then Get(p[1..], k)
    else if p[0].0 == k then p[0].1
    else Undef
  }

  /** `p[k] = v`: an existing key keeps its place, a new one goes last. */
  function Put(p: Properties, k: string, v: Value): (r: Properties)
    ensures Get(r, k) == v
    ensures forall j :: j != k ==> Get(r, j) == Get(p, j)
    ensures Keys(r) == if k in Keys(p) then Keys(p) else Keys(p) + [k]
  {
    if k in Keys(p) then ReplaceAll(p, k, v)
    else
      GetAppend(p, k, v);
      p + [(k, v)]
  }

  lemma {:induction false} GetAppend(p: Properties, k: string, v: Value)
    ensures Keys(p + [(k, v)]) == Keys(p) + [k]
    ensures Get(p + [(k, v)], k) == v
    ensures forall j :: j != k ==> Get(p + [(k, v)], j) == Get(p, j)
    decreases |p|
  {
    if p != [] {
      assert (p + [(k, v)])[1..] == p[1..] + [(k, v)];
      GetAppend(p[1..], k, v);
    }
  }

  /** Every entry under `k` set to `v`; keys and the other entries kept. */
  function ReplaceAll(p: Properties, k: string, v: Value): (r: Properties)
    ensures Keys(r) == Keys(p)
    ensures forall j :: j != k ==> Get(r, j) == Get(p, j)
    ensures k in Keys(p) ==> Get(r, k) == v
    decreases |p|
  {
    if p == [] then []
    else
      var r := [if p[0].0 == k then (k, v) else p[0]] + ReplaceAll(p[1..], k, v);
      assert r[1..] == ReplaceAll(p[1..], k, v);
      r
  }

  /** `{...base, ...over}`: the entries of `over` written in order onto `base`. */
  function Spread(base: Properties, over: Properties): (r: Properties)
    decreases |over|
  {
    if over == [] then base
    else Spread(Put(base, over[0].0, over[0].1), over[1..])
  }

  /** A key of `over` takes its value from `over` (the last entry with that
      key); any other key keeps its value from `base`. */
  lemma {:induction false} SpreadGet(base: Properties, over: Properties, k: string)
    ensures Get(Spread(base, over), k) == if k in Keys(over) then Get(over, k) else Get(base, k)
    decreases |over|
  {
    if over != [] {
      SpreadGet(Put(base, over[0].0, over[0].1), over[1..], k);
    }
  }

  /** Keys of a spread: the base's keys keep their places in front, and the
      keys are exactly those of the two records. */
  lemma {:induction false} SpreadKeys(base: Properties, over: Properties)
    ensures Keys(base) <= Keys(Spread(base, over))
    ensures forall k :: k in Keys(Spread(base, over)) <==> k in Keys(base) || k in Keys(over)
    decreases |over|
  {
    if over != [] {
      SpreadKeys(Put(base, over[0].0, over[0].1), over[1..]);
    }
  }

  /** A point in time as the adapters construct it: `new Date(ms)`, `new
      Date(text)`, or a date built from `NaN`. Formatting is left to the
      host's journal-link function. */
  datatype Date = Epoch(ms: int) | Parsed(text: string) | Invalid

  /** An annotation attached to a bookmark. */
  datatype Highlight = Highlight(
    hash: string,
    text: string,
    tags: Option<seq<string>>,
    properties: Properties,
    created: Option<Date>)

  /** A normalized external resource; an absent `properties` record is the
      empty record, which spreads the same way. */
  datatype Bookmark = Bookmark(
    hash: string,
    title: string,
    url: Option<string>,
    tags: Option<seq<string>>,
    properties: Properties,
    highlights: Option<seq<Highlight>>,
    created: Option<Date>)
}
