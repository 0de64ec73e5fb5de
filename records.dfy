/**
 * One interaction record as returned by the interaction web service, and
 * the extraction of its two interactors and its raw quantitation
 * (`extract_interactors`).
 */
module Records {
  import opened Wrappers

  /** The field mapping of one record; every field value is a string. */
  type Details = map<string, string>

  /** `details.get(key)`: the value stored under `key`, or `None`. */
  function Get(d: Details, key: string): (r: Option<string>)
    ensures r.Some? <==> key in d
    ensures r.Some? ==> r.value == d[key]
  {
    if key in d then Some(d[key]) else None
  }

  /** Python truthiness of an optional string: present and non-empty. */
  predicate Truthy(v: Option<string>) {
    v.Some? && v.value != ""
  }

  /**
   * `d.get(keys[0]) or d.get(keys[1]) or ... or d.get(keys[n-1])`:
   * Python's `or` yields its left operand when that is truthy and its right
   * operand otherwise, so the chain yields the first truthy value, or the
   * value of the last key when no value is truthy.
   */
  function FirstTruthy(d: Details, keys: seq<string>): (r: Option<string>)
    requires |keys| > 0
    ensures Truthy(r) <==> exists i :: 0 <= i < |keys| && Truthy(Get(d, keys[i]))
    ensures Truthy(r) ==> exists i :: 0 <= i < |keys| && r == Get(d, keys[i]) &&
                                      forall j :: 0 <= j < i ==> !Truthy(Get(d, keys[j]))
    ensures !Truthy(r) ==> r == Get(d, keys[|keys| - 1])
    decreases |keys|
  {
    var first := Get(d, keys[0]);
    if |keys| == 1 || Truthy(first) then first
    else
      var rest := FirstTruthy(d, keys[1..]);
      assert forall i :: 1 <= i < |keys| ==> keys[i] == keys[1..][i - 1];
      rest
  }

  /** The candidate field names for each interactor, in lookup order. */
  const FieldsA: seq<string> := ["OFFICIAL_SYMBOL_A", "InteractorA"]
  const FieldsB: seq<string> := ["OFFICIAL_SYMBOL_B", "InteractorB"]
  /** The single field holding the quantitation; it has no fallback. */
  const QuantitationField: string := "QUANTITATION"

  /** The triple `(interactor_a, interactor_b, quantitation)`. */
  datatype Extracted = Extracted(a: Option<string>, b: Option<string>, quantitation: Option<string>)

  /**
   * `extract_interactors`: each interactor is the official symbol when that
   * is present and non-empty, and otherwise whatever the fallback field holds
   * (possibly nothing); the quantitation is the raw `QUANTITATION` value.
   */
  function ExtractInteractors(d: Details): (r: Extracted)
    ensures r.a == if Truthy(Get(d, "OFFICIAL_SYMBOL_A")) then Get(d, "OFFICIAL_SYMBOL_A")
                   else Get(d, "InteractorA")
    ensures r.b == if Truthy(Get(d, "OFFICIAL_SYMBOL_B")) then Get(d, "OFFICIAL_SYMBOL_B")
                   else Get(d, "InteractorB")
    ensures r.quantitation == Get(d, "QUANTITATION")
    ensures Truthy(r.a) <==> Truthy(Get(d, "OFFICIAL_SYMBOL_A")) || Truthy(Get(d, "InteractorA"))
    ensures Truthy(r.b) <==> Truthy(Get(d, "OFFICIAL_SYMBOL_B")) || Truthy(Get(d, "InteractorB"))
  {
    Extracted(FirstTruthy(d, FieldsA), FirstTruthy(d, FieldsB), Get(d, QuantitationField))
  }

  /** The record passes the `if interactor_a and interactor_b` test. */
  predicate IsValid(e: Extracted) {
    Truthy(e.a) && Truthy(e.b)
  }
}
