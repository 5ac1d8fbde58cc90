/**
  `getModuleId(key)`: a per-key counter kept on the JavaScript global object,
  under the property `__coc_helper_module_max_id_<key>`. The global object
  is an explicit map from property names to counter values.
 */
module ModuleId {

  type Globals = map<string, int>

  const GlobalModuleIdKey := "__coc_helper_module_max_id"

  /** The global property that holds the counter for `key`. */
  function GlobalKey(key: string): (g: string)
    ensures |g| == |GlobalModuleIdKey| + 1 + |key|
    ensures g[|GlobalModuleIdKey| + 1..] == key
  {
    GlobalModuleIdKey + "_" + key
  }

  /** Distinct keys use distinct global properties. */
  lemma GlobalKeyInjective(a: string, b: string)
    requires GlobalKey(a) == GlobalKey(b)
    ensures a == b
  {
    assert a == GlobalKey(a)[|GlobalModuleIdKey| + 1..];
  }

  /** The current value of the counter for `key`; an absent one counts as zero. */
  function Current(g: Globals, key: string): int {
    var k := GlobalKey(key);
    if k in g then g[k] else 0
  }

  /** Sets the property to 0 when it is missing, adds 1, and returns it. */
  function GetModuleId(g: Globals, key: string): (r: (int, Globals))
    ensures r.0 == Current(g, key) + 1
    ensures GlobalKey(key) !in g ==> r.0 == 1
    ensures Current(r.1, key) == r.0
    ensures forall other :: other != key ==> Current(r.1, other) == Current(g, other)
    ensures r.1.Keys == g.Keys + {GlobalKey(key)}
  {
    var k := GlobalKey(key);
    var g0 := if k !in g then g[k := 0] else g;
    var id := g0[k] + 1;
    var g1 := g0[k := id];
    forall other | other != key
      ensures Current(g1, other) == Current(g, other)
    {
      if GlobalKey(other) == k {
        GlobalKeyInjective(other, key);
      }
    }
    (id, g1)
  }

  /** Counters only ever hold positive values. */
  ghost predicate AllPositive(g: Globals) {
    forall k :: k in g ==> g[k] >= 1
  }

  /** Starting from a global object whose counters are positive (the empty
      one, say), every returned id is at least 1 and counters stay positive. */
  lemma IdsArePositive(g: Globals, key: string)
    requires AllPositive(g)
    ensures GetModuleId(g, key).0 >= 1
    ensures AllPositive(GetModuleId(g, key).1)
  {
  }

  /** Issuing `n` ids for one key from a fresh global object returns
      1, 2, ..., n in that order. */
  method IssueIds(key: string, n: nat) returns (ids: seq<int>, g: Globals)
    ensures |ids| == n
    ensures forall i :: 0 <= i < n ==> ids[i] == i + 1
    ensures Current(g, key) == n
  {
    g := map[];
    ids := [];
    var i := 0;
    while i < n
      invariant 0 <= i <= n
      invariant |ids| == i
      invariant forall j :: 0 <= j < i ==> ids[j] == j + 1
      invariant Current(g, key) == i
    {
      var r := GetModuleId(g, key);
      ids := ids + [r.0];
      g := r.1;
      i := i + 1;
    }
  }
}
