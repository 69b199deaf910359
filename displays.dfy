/**
 * The display table the tool receives from its `xrandr` report parser: one
 * record per output, in the key order of the parsed object.
 */
module Displays {
  import opened Wrappers

  /** An output name such as "LVDS1" or "VGA1"; the key of the table. */
  type Id = string

  /** A mode an output supports, in pixels. */
  datatype Mode = Mode(width: nat, height: nat)

  /**
   * One output as the report parser describes it. `width` and `height` are
   * the current geometry and are `None` (JavaScript `undefined`) when the
   * output is not active; `modes` are in report order, the first being the
   * output's preferred mode.
   */
  datatype Display = Display(
    index: int,
    connected: bool,
    native: bool,
    width: Option<nat>,
    height: Option<nat>,
    modes: seq<Mode>)

  /** The parsed report in `Object.keys` order. */
  type Table = seq<(Id, Display)>

  predicate HasKey(t: Table, k: Id) {
    exists i :: 0 <= i < |t| && t[i].0 == k
  }

  /** A parsed object never holds the same key twice. */
  predicate DistinctIds(t: Table) {
    forall i, j :: 0 <= i < j < |t| ==> t[i].0 != t[j].0
  }

  /** The record stored under `k` in the parsed object, if any. */
  function Lookup(t: Table, k: Id): (r: Option<Display>)
    ensures r.None? <==> !HasKey(t, k)
    ensures r.Some? ==> exists i :: 0 <= i < |t| && t[i] == (k, r.value)
  {
    if t == [] then None
    else if t[0].0 == k then Some(t[0].1)
    else Lookup(t[1..], k)
  }

  /** With distinct keys, looking up the key at position `i` gives the record at `i`. */
  lemma LookupAt(t: Table, i: int)
    requires DistinctIds(t) && 0 <= i < |t|
    ensures Lookup(t, t[i].0) == Some(t[i].1)
  {
  }
}
