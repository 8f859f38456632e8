/** Name/value lists as `URLSearchParams` holds them, in insertion order. */
module Params {
  import opened Wrappers

  type Params = seq<(string, string)>

  /** `URLSearchParams.prototype.get`: the value of the first pair with that name, or null. */
  function Get(ps: Params, name: string): (r: Option<string>)
  {
    if |ps| == 0 then None
    else if ps[0].0 == name then Some(ps[0].1)
    else Get(ps[1..], name)
  }

  lemma {:induction false} GetAt(ps: Params, k: nat)
    requires k < |ps|
    requires forall j :: 0 <= j < k ==> ps[j].0 != ps[k].0
    ensures Get(ps, ps[k].0) == Some(ps[k].1)
  {
    if k > 0 {
      GetAt(ps[1..], k - 1);
    }
  }

  function Names(ps: Params): (ns: seq<string>)
    ensures |ns| == |ps|
    ensures forall i :: 0 <= i < |ps| ==> ns[i] == ps[i].0
  {
    seq(|ps|, i requires 0 <= i < |ps| => ps[i].0)
  }

  /** JavaScript truthiness of a value that is a string or null (`undefined`). */
  predicate Truthy(v: Option<string>) {
    v.Some? && v.value != ""
  }
}
